/** The string functions the launcher's codecs are built from: Go's `strings.Split`,
  * `strings.Cut`, `strings.TrimSpace`, `strings.Fields`, `strings.ToLower` and
  * `strconv` over decimal and hexadecimal numerals. */
module Text {
  import opened Wrappers

  /** `unicode.IsSpace`. */
  predicate IsSpace(c: char) {
    c in {'\t', '\n', '\U{0b}', '\U{0c}', '\r', ' ', '\U{85}', '\U{a0}', '\U{1680}',
          '\U{2028}', '\U{2029}', '\U{202f}', '\U{205f}', '\U{3000}'}
    || '\U{2000}' <= c <= '\U{200a}'
  }

  /** The same by code point: the C0 space controls, the space, U+0085, and the
    * characters of the Unicode space separator, line and paragraph categories. */
  lemma SpaceTable(c: char)
    ensures IsSpace(c) <==>
              var n := c as int;
              || 9 <= n <= 13 || n == 32 || n == 133 || n == 160 || n == 5760 || 8192 <= n <= 8202
              || n == 8232 || n == 8233 || n == 8239 || n == 8287 || n == 12288
  {
  }

  predicate AllSpace(s: string) {
    forall i :: 0 <= i < |s| ==> IsSpace(s[i])
  }

  predicate NoSpace(s: string) {
    forall i :: 0 <= i < |s| ==> !IsSpace(s[i])
  }

  /* ---------- Split and Join ---------- */

  function Split(s: string, sep: char): (r: seq<string>)
    ensures |r| >= 1
  {
    if s == "" then [""]
    else
      var rest := Split(s[1..], sep);
      if s[0] == sep then [""] + rest else [[s[0]] + rest[0]] + rest[1..]
  }

  function Join(parts: seq<string>, sep: char): string {
    if parts == [] then ""
    else if |parts| == 1 then parts[0]
    else parts[0] + [sep] + Join(parts[1..], sep)
  }

  lemma {:induction false} SplitWhole(a: string, sep: char)
    requires sep !in a
    ensures Split(a, sep) == [a]
  {
    if a != "" {
      SplitWhole(a[1..], sep);
      assert [a[0]] + a[1..] == a;
    }
  }

  lemma {:induction false} SplitAt(a: string, b: string, sep: char)
    requires sep !in a
    ensures Split(a + [sep] + b, sep) == [a] + Split(b, sep)
  {
    var s := a + [sep] + b;
    if a == "" {
      assert s[1..] == b;
    } else {
      SplitAt(a[1..], b, sep);
      assert s[1..] == a[1..] + [sep] + b && [a[0]] + a[1..] == a;
    }
  }

  /** Joining and splitting again gives the parts back. */
  lemma {:induction false} SplitJoin(parts: seq<string>, sep: char)
    requires parts != []
    requires forall i :: 0 <= i < |parts| ==> sep !in parts[i]
    ensures Split(Join(parts, sep), sep) == parts
  {
    if |parts| == 1 {
      SplitWhole(parts[0], sep);
    } else {
      SplitJoin(parts[1..], sep);
      SplitAt(parts[0], Join(parts[1..], sep), sep);
    }
  }

  /** Splitting loses nothing, and no piece holds the separator. */
  lemma {:induction false} JoinSplit(s: string, sep: char)
    ensures Join(Split(s, sep), sep) == s
    ensures forall i :: 0 <= i < |Split(s, sep)| ==> sep !in Split(s, sep)[i]
  {
    if s != "" {
      JoinSplit(s[1..], sep);
    }
  }

  /* ---------- Cut ---------- */

  datatype Cutting = Cutting(before: string, after: string, found: bool)

  /** `strings.Cut`: around the first occurrence. */
  function Cut(s: string, sep: char): (r: Cutting) {
    if s == "" then Cutting("", "", false)
    else if s[0] == sep then Cutting("", s[1..], true)
    else
      var rest := Cut(s[1..], sep);
      Cutting([s[0]] + rest.before, rest.after, rest.found)
  }

  lemma {:induction false} CutAt(a: string, b: string, sep: char)
    requires sep !in a
    ensures Cut(a + [sep] + b, sep) == Cutting(a, b, true)
  {
    var s := a + [sep] + b;
    if a == "" {
      assert s[1..] == b;
    } else {
      CutAt(a[1..], b, sep);
      assert s[1..] == a[1..] + [sep] + b;
    }
  }

  lemma {:induction false} CutNone(a: string, sep: char)
    requires sep !in a
    ensures Cut(a, sep) == Cutting(a, "", false)
  {
    if a != "" {
      CutNone(a[1..], sep);
    }
  }

  lemma {:induction false} CutParts(s: string, sep: char)
    requires Cut(s, sep).found
    ensures s == Cut(s, sep).before + [sep] + Cut(s, sep).after
    ensures sep !in Cut(s, sep).before
  {
    if s[0] == sep {
      assert s == [] + [sep] + s[1..];
    } else {
      CutParts(s[1..], sep);
      assert s == [s[0]] + s[1..];
    }
  }

  /** `strings.LastIndex` of one character. */
  function LastIndex(s: string, c: char): (i: int)
    ensures -1 <= i < |s| && (i >= 0 ==> s[i] == c)
  {
    if s == "" then -1
    else if s[|s| - 1] == c then |s| - 1
    else LastIndex(s[..|s| - 1], c)
  }

  lemma {:induction false} LastIndexAt(a: string, b: string, c: char)
    requires c !in b
    ensures LastIndex(a + [c] + b, c) == |a|
  {
    if b != "" {
      LastIndexAt(a, b[..|b| - 1], c);
      assert (a + [c] + b)[..|a| + |b|] == a + [c] + b[..|b| - 1];
    }
  }

  lemma {:induction false} LastIndexNone(a: string, c: char)
    requires c !in a
    ensures LastIndex(a, c) == -1
  {
    if a != "" {
      LastIndexNone(a[..|a| - 1], c);
    }
  }

  /* ---------- TrimSpace ---------- */

  function TrimLeft(s: string): string {
    if s != "" && IsSpace(s[0]) then TrimLeft(s[1..]) else s
  }

  function TrimRight(s: string): string {
    if s != "" && IsSpace(s[|s| - 1]) then TrimRight(s[..|s| - 1]) else s
  }

  function Trim(s: string): string {
    TrimRight(TrimLeft(s))
  }

  /** A text that `TrimSpace` leaves alone. */
  predicate Trimmed(s: string) {
    s != "" ==> !IsSpace(s[0]) && !IsSpace(s[|s| - 1])
  }

  lemma {:induction false} TrimLeftPadded(l: string, s: string)
    requires AllSpace(l) && (s != "" ==> !IsSpace(s[0]))
    ensures TrimLeft(l + s) == s
  {
    if l == "" {
      assert l + s == s;
    } else {
      TrimLeftPadded(l[1..], s);
      assert (l + s)[1..] == l[1..] + s;
    }
  }

  lemma {:induction false} TrimRightPadded(s: string, r: string)
    requires AllSpace(r) && (s != "" ==> !IsSpace(s[|s| - 1]))
    ensures TrimRight(s + r) == s
  {
    if r == "" {
      assert s + r == s;
    } else {
      TrimRightPadded(s, r[..|r| - 1]);
      assert (s + r)[..|s + r| - 1] == s + r[..|r| - 1];
    }
  }

  lemma TrimPadded(l: string, s: string, r: string)
    requires AllSpace(l) && AllSpace(r) && Trimmed(s)
    ensures Trim(l + s + r) == s
  {
    if s == "" {
      TrimLeftPadded(l + r, "");
      assert l + s + r == l + r + "";
    } else {
      TrimLeftPadded(l, s + r);
      assert l + s + r == l + (s + r);
      TrimRightPadded(s, r);
    }
  }

  /** Trimming takes off nothing but white space. */
  lemma {:induction false} TrimLeftKeeps(s: string)
    ensures forall c :: c in s ==> IsSpace(c) || c in TrimLeft(s)
  {
    if s != "" && IsSpace(s[0]) {
      TrimLeftKeeps(s[1..]);
    }
  }

  lemma {:induction false} TrimRightKeeps(s: string)
    ensures forall c :: c in s ==> IsSpace(c) || c in TrimRight(s)
  {
    if s != "" && IsSpace(s[|s| - 1]) {
      TrimRightKeeps(s[..|s| - 1]);
      assert forall c :: c in s ==> c == s[|s| - 1] || c in s[..|s| - 1];
    }
  }

  lemma TrimKeeps(s: string)
    ensures forall c :: c in s ==> IsSpace(c) || c in Trim(s)
  {
    TrimLeftKeeps(s);
    TrimRightKeeps(TrimLeft(s));
  }

  /* ---------- Fields ---------- */

  /** The length of the leading run without white space. */
  function WordLength(s: string): (n: nat)
    ensures n <= |s| && NoSpace(s[..n])
    ensures n < |s| ==> IsSpace(s[n])
  {
    if s == "" || IsSpace(s[0]) then 0
    else
      var n := WordLength(s[1..]) + 1;
      assert s[..n] == [s[0]] + s[1..][..n - 1];
      n
  }

  function Fields(s: string): (r: seq<string>)
    ensures forall i :: 0 <= i < |r| ==> r[i] != "" && NoSpace(r[i])
    decreases |s|
  {
    if s == "" then []
    else if IsSpace(s[0]) then Fields(s[1..])
    else [s[..WordLength(s)]] + Fields(s[WordLength(s)..])
  }

  lemma {:induction false} FieldsSkip(l: string, s: string)
    requires AllSpace(l)
    ensures Fields(l + s) == Fields(s)
  {
    if l == "" {
      assert l + s == s;
    } else {
      FieldsSkip(l[1..], s);
      assert (l + s)[1..] == l[1..] + s;
    }
  }

  lemma {:induction false} WordLengthOf(w: string, s: string)
    requires NoSpace(w) && (s != "" ==> IsSpace(s[0]))
    ensures WordLength(w + s) == |w|
  {
    if w == "" {
      assert w + s == s;
    } else {
      WordLengthOf(w[1..], s);
      assert (w + s)[1..] == w[1..] + s;
    }
  }

  lemma FieldsWord(w: string, s: string)
    requires w != "" && NoSpace(w) && (s != "" ==> IsSpace(s[0]))
    ensures Fields(w + s) == [w] + Fields(s)
  {
    WordLengthOf(w, s);
    assert (w + s)[..|w|] == w && (w + s)[|w|..] == s;
  }

  predicate IsWord(word: string) {
    word != "" && NoSpace(word)
  }

  lemma {:induction false} FieldsJoin(words: seq<string>)
    requires words != [] && forall i :: 0 <= i < |words| ==> IsWord(words[i])
    ensures Fields(Join(words, ' ')) == words
  {
    if |words| == 1 {
      FieldsWord(words[0], "");
      assert words[0] + "" == words[0];
    } else {
      var rest := Join(words[1..], ' ');
      FieldsJoin(words[1..]);
      FieldsSkip(" ", rest);
      FieldsWord(words[0], " " + rest);
      assert Join(words, ' ') == words[0] + (" " + rest);
    }
  }

  /* ---------- case ---------- */

  function LowerChar(c: char): char {
    if 'A' <= c <= 'Z' then c - 'A' + 'a' else c
  }

  function ToLower(s: string): (r: string)
    ensures |r| == |s|
    ensures forall i :: 0 <= i < |s| ==> r[i] == LowerChar(s[i])
  {
    seq(|s|, i requires 0 <= i < |s| => LowerChar(s[i]))
  }

  /** The capital letters become small ones, and nothing else changes. */
  lemma LowerTable(c: char)
    ensures forall i :: 0 <= i < 26 ==>
              LowerChar("ABCDEFGHIJKLMNOPQRSTUVWXYZ"[i]) == "abcdefghijklmnopqrstuvwxyz"[i]
    ensures c !in "ABCDEFGHIJKLMNOPQRSTUVWXYZ" ==> LowerChar(c) == c
  {
    var upper := "ABCDEFGHIJKLMNOPQRSTUVWXYZ";
    assert forall i :: 0 <= i < 26 ==> upper[i] == 'A' + (i as char);
    assert forall i :: 0 <= i < 26 ==> "abcdefghijklmnopqrstuvwxyz"[i] == 'a' + (i as char);
    if 'A' <= c <= 'Z' {
      assert c == upper[(c - 'A') as nat];
    }
  }

  /** `strings.EqualFold` on ASCII text. */
  predicate EqualFold(a: string, b: string) {
    ToLower(a) == ToLower(b)
  }

  predicate IsLowerHex(c: char) {
    '0' <= c <= '9' || 'a' <= c <= 'f'
  }

  /** 64 lowercase hexadecimal digits, the form of `hex.EncodeToString` of a sum. */
  predicate LowerHex64(s: string) {
    |s| == 64 && forall i :: 0 <= i < |s| ==> IsLowerHex(s[i])
  }

  lemma LowerHexIsLower(s: string)
    requires forall i :: 0 <= i < |s| ==> IsLowerHex(s[i])
    ensures ToLower(s) == s
  {
  }

  /* ---------- numerals ---------- */

  predicate IsDigit(c: char) {
    '0' <= c <= '9'
  }

  function DigitChar(d: nat): (c: char)
    requires d < 10
    ensures IsDigit(c) && DigitValue(c) == d
  {
    '0' + (d as char)
  }

  function DigitValue(c: char): (d: nat)
    requires IsDigit(c)
    ensures d < 10
  {
    (c - '0') as nat
  }

  /** `strconv.Itoa` of a natural number. */
  function Itoa(n: nat): (s: string)
    ensures s != "" && forall i :: 0 <= i < |s| ==> IsDigit(s[i])
  {
    if n < 10 then [DigitChar(n)] else Itoa(n / 10) + [DigitChar(n % 10)]
  }

  /** The number a non-empty run of decimal digits denotes. */
  function Number(s: string): Option<nat> {
    if s == "" || !IsDigit(s[|s| - 1]) then None
    else if |s| == 1 then Some(DigitValue(s[0]))
    else
      var rest := Number(s[..|s| - 1]);
      if rest.None? then None else Some(rest.value * 10 + DigitValue(s[|s| - 1]))
  }

  /** `strconv.Atoi`: digits after an optional sign. */
  function Atoi(s: string): Option<int> {
    if s != "" && (s[0] == '+' || s[0] == '-') then
      var n := Number(s[1..]);
      if n.None? then None else Some(if s[0] == '-' then -(n.value as int) else n.value as int)
    else
      var n := Number(s);
      if n.None? then None else Some(n.value as int)
  }

  lemma {:induction false} NumberItoa(n: nat)
    ensures Number(Itoa(n)) == Some(n)
  {
    if n >= 10 {
      NumberItoa(n / 10);
      var s := Itoa(n);
      assert s[..|s| - 1] == Itoa(n / 10);
    }
  }

  lemma AtoiItoa(n: nat)
    ensures Atoi(Itoa(n)) == Some(n)
  {
    NumberItoa(n);
    assert IsDigit(Itoa(n)[0]);
  }

  lemma {:induction false} NumberDigits(s: string)
    requires Number(s).Some?
    ensures forall c :: c in s ==> IsDigit(c)
  {
    if |s| > 1 {
      NumberDigits(s[..|s| - 1]);
      assert forall c :: c in s ==> c == s[|s| - 1] || c in s[..|s| - 1];
    }
  }

  /** What `Atoi` accepts is made of digits and a sign. */
  lemma AtoiChars(s: string)
    requires Atoi(s).Some?
    ensures forall c :: c in s ==> IsDigit(c) || c in {'+', '-'}
  {
    if s != "" && (s[0] == '+' || s[0] == '-') {
      NumberDigits(s[1..]);
      assert forall c :: c in s ==> c == s[0] || c in s[1..];
    } else {
      NumberDigits(s);
    }
  }

  /** The value of the digits read so far, and of one more. */
  lemma NumberSnoc(s: string, d: nat)
    requires d < 10 && (s == "" || Number(s).Some?)
    ensures Number(s + ["0123456789"[d]]) == Some((if s == "" then 0 else Number(s).value) * 10 + d)
  {
    var c := "0123456789"[d];
    assert c == '0' + (d as char);
    assert (s + [c])[..|s|] == s;
  }

  /** A text is a number exactly when it is not empty and all digits, leading zeros included. */
  lemma {:induction false} NumberIff(s: string)
    ensures Number(s).Some? <==> s != "" && forall i :: 0 <= i < |s| ==> '0' <= s[i] <= '9'
  {
    if s != "" {
      NumberIff(s[..|s| - 1]);
      assert (forall i :: 0 <= i < |s| ==> '0' <= s[i] <= '9') <==>
        '0' <= s[|s| - 1] <= '9' && forall i :: 0 <= i < |s| - 1 ==> '0' <= s[i] <= '9';
      assert forall i :: 0 <= i < |s| - 1 ==> s[i] == s[..|s| - 1][i];
    }
  }

  /** A numeral may carry one sign; nothing else is a numeral. */
  lemma AtoiIff(s: string, v: int)
    ensures Atoi(s) == Some(v) <==>
              || (exists n: nat :: Number(s) == Some(n) && v == n)
              || (s != "" && s[0] == '+' && exists n: nat :: Number(s[1..]) == Some(n) && v == n)
              || (s != "" && s[0] == '-' && exists n: nat :: Number(s[1..]) == Some(n) && v == -(n as int))
  {
    NumberIff(s);
  }

  lemma DigitsAreWord(s: string)
    requires forall i :: 0 <= i < |s| ==> IsDigit(s[i])
    ensures NoSpace(s) && Trimmed(s)
  {
  }
}
