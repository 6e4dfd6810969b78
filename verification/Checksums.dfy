/** Looking a file up in a sha256sum-style listing, and checking a download against
  * what was found. SHA-256 is an arbitrary function into 64 lowercase digits. */
module Checksums {
  import opened Text

  type Bytes = seq<bv8>

  /** `sha` produces sums the way `hex.EncodeToString` writes them. */
  ghost predicate HexSums(sha: Bytes -> string) {
    forall b :: LowerHex64(sha(b))
  }

  /** The line lists `filename` under a 64-character sum. */
  predicate Lists(line: string, filename: string) {
    var f := Fields(line);
    |f| >= 2 && f[|f| - 1] == filename && |f[0]| == 64
  }

  /** The sum on the first line that lists `filename`, or empty. */
  function FirstSum(lines: seq<string>, filename: string): string {
    if lines == [] then ""
    else if Lists(lines[0], filename) then ToLower(Fields(lines[0])[0])
    else FirstSum(lines[1..], filename)
  }

  method ChecksumFromSums(sums: string, filename: string) returns (sum: string)
    ensures sum == FirstSum(Split(sums, '\n'), filename)
  {
    var lines := Split(sums, '\n');
    var i := 0;
    while i < |lines|
      invariant 0 <= i <= |lines|
      invariant FirstSum(lines, filename) == FirstSum(lines[i..], filename)
    {
      var f := Fields(lines[i]);
      if |f| >= 2 && f[|f| - 1] == filename && |f[0]| == 64 {
        return ToLower(f[0]);
      }
      i := i + 1;
    }
    return "";
  }

  /* ---------- the listing round trip ---------- */

  /** A line of a listing, word by word: in sha256sum's own lines a sum and a name. */
  type Words = seq<string>

  predicate WellFormed(line: Words) {
    forall i :: 0 <= i < |line| ==> IsWord(line[i])
  }

  /** White space between the first word and the rest, as sha256sum has two blanks there. */
  predicate IsGap(gap: string) {
    gap != "" && AllSpace(gap) && '\n' !in gap
  }

  function RenderLine(line: Words, gap: string): string {
    if |line| < 2 then Join(line, ' ') else line[0] + gap + Join(line[1..], ' ')
  }

  function Render(lines: seq<Words>, gap: string): string {
    if lines == [] then "" else RenderLine(lines[0], gap) + "\n" + Render(lines[1..], gap)
  }

  /** Searching the lines themselves: the first whose last word is the name, behind a
    * first word of 64 characters. */
  function Lookup(lines: seq<Words>, filename: string): string {
    if lines == [] then ""
    else
      var line := lines[0];
      if |line| > 1 && line[|line| - 1] == filename && |line[0]| == 64 then ToLower(line[0])
      else Lookup(lines[1..], filename)
  }

  lemma {:induction false} JoinOneLine(words: seq<string>)
    requires forall i :: 0 <= i < |words| ==> NoSpace(words[i])
    ensures '\n' !in Join(words, ' ')
  {
    if words != [] {
      assert IsSpace('\n') && '\n' !in words[0];
      JoinOneLine(words[1..]);
    }
  }

  lemma LineFields(line: Words, gap: string)
    requires WellFormed(line) && IsGap(gap)
    ensures Fields(RenderLine(line, gap)) == line && '\n' !in RenderLine(line, gap)
  {
    JoinOneLine(line);
    if line == [] {
      assert Fields("") == [];
    } else if |line| == 1 {
      FieldsJoin(line);
    } else {
      var rest := Join(line[1..], ' ');
      JoinOneLine(line[1..]);
      FieldsJoin(line[1..]);
      FieldsSkip(gap, rest);
      assert line[0] + gap + rest == line[0] + (gap + rest);
      FieldsWord(line[0], gap + rest);
      assert IsSpace('\n') && '\n' !in line[0];
    }
  }

  /** Looking a name up in a rendered listing finds what searching its lines finds. */
  lemma {:induction false} ListingRoundTrip(lines: seq<Words>, gap: string, filename: string)
    requires IsGap(gap) && forall i :: 0 <= i < |lines| ==> WellFormed(lines[i])
    ensures FirstSum(Split(Render(lines, gap), '\n'), filename) == Lookup(lines, filename)
  {
    if lines == [] {
      assert Split("", '\n') == [""];
      assert Fields("") == [];
      assert [""][1..] == [];
    } else {
      var line := RenderLine(lines[0], gap);
      LineFields(lines[0], gap);
      assert Render(lines, gap) == line + ['\n'] + Render(lines[1..], gap);
      SplitAt(line, Render(lines[1..], gap), '\n');
      ListingRoundTrip(lines[1..], gap, filename);
      assert ([line] + Split(Render(lines[1..], gap), '\n'))[1..] == Split(Render(lines[1..], gap), '\n');
    }
  }

  /* ---------- verifying a file ---------- */

  /** `verifySHA256` accepts. */
  predicate Verifies(sha: Bytes -> string, content: Bytes, want: string) {
    |want| == 64 && EqualFold(sha(content), want)
  }

  lemma {:induction false} FirstSumIsLower(lines: seq<string>, filename: string)
    ensures ToLower(FirstSum(lines, filename)) == FirstSum(lines, filename)
    ensures FirstSum(lines, filename) == "" || |FirstSum(lines, filename)| == 64
  {
    if lines != [] {
      FirstSumIsLower(lines[1..], filename);
    }
  }

  /** A file passes exactly when its hash is the wanted sum, in whatever case that is written. */
  lemma VerifiesAnyCase(sha: Bytes -> string, content: Bytes, want: string)
    requires HexSums(sha)
    ensures Verifies(sha, content, want) <==> sha(content) == ToLower(want)
  {
    assert LowerHex64(sha(content));
    LowerHexIsLower(sha(content));
  }

  /** A file passes against a listed sum exactly when its hash is that sum. */
  lemma VerifiesIff(sha: Bytes -> string, content: Bytes, lines: seq<string>, filename: string)
    requires HexSums(sha)
    ensures Verifies(sha, content, FirstSum(lines, filename)) <==> sha(content) == FirstSum(lines, filename)
  {
    FirstSumIsLower(lines, filename);
    assert LowerHex64(sha(content));
    LowerHexIsLower(sha(content));
  }
}
