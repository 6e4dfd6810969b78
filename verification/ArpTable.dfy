/** Finding a guest's address in the host's ARP table: `lookupARP`. */
module ArpTable {
  import opened Wrappers
  import opened Text
  import opened LeaseFile

  predicate IsParen(c: char) {
    c == '(' || c == ')'
  }

  predicate Parenthesised(word: string) {
    word != "" && word[0] == '(' && word[|word| - 1] == ')'
  }

  /** `strings.Trim(word, "()")`. */
  function TrimParens(word: string): string {
    if word != "" && IsParen(word[0]) then TrimParens(word[1..])
    else if word != "" && IsParen(word[|word| - 1]) then TrimParens(word[..|word| - 1])
    else word
  }

  /** The last parenthesised word, without its parentheses. */
  function AddressOf(words: seq<string>): string {
    if words == [] then ""
    else if Parenthesised(words[|words| - 1]) then TrimParens(words[|words| - 1])
    else AddressOf(words[..|words| - 1])
  }

  /** The word after the last `at` that one follows. */
  function HardwareOf(words: seq<string>): string {
    if |words| < 2 then ""
    else if words[|words| - 2] == "at" then words[|words| - 1]
    else HardwareOf(words[..|words| - 1])
  }

  predicate Maps(words: seq<string>, mac: seq<Byte>) {
    && AddressOf(words) != "" && HardwareOf(words) != "" && HardwareOf(words) != "(incomplete)"
    && MacMatches(HardwareOf(words), mac)
  }

  /** The address on the first line that maps to `mac`. */
  function FirstMapped(lines: seq<string>, mac: seq<Byte>): string
    decreases |lines|
  {
    if lines == [] then ""
    else if Maps(Fields(lines[0]), mac) then AddressOf(Fields(lines[0]))
    else FirstMapped(lines[1..], mac)
  }

  /** The inner loop: one pass over a line's words. */
  method ScanWords(words: seq<string>) returns (ip: string, hw: string)
    ensures ip == AddressOf(words) && hw == HardwareOf(words)
  {
    ip, hw := "", "";
    var i := 0;
    while i < |words|
      invariant 0 <= i <= |words| && ip == AddressOf(words[..i])
      invariant hw == HardwareOf(words[..if i < |words| then i + 1 else i])
    {
      var f := words[i];
      if Parenthesised(f) {
        ip := TrimParens(f);
      }
      if f == "at" && i + 1 < |words| {
        hw := words[i + 1];
      }
      i := i + 1;
      assert words[..i][..i - 1] == words[..i - 1];
      if i < |words| {
        assert words[..i + 1][..i] == words[..i];
      }
    }
    assert words[..i] == words;
  }

  /** `lookupARP` on the output of `arp -an`, or on nothing when the command fails. */
  method LookupARP(output: Option<string>, mac: seq<Byte>) returns (found: string)
    ensures found == if output.None? then "" else FirstMapped(Split(output.value, '\n'), mac)
  {
    if output.None? {
      return "";
    }
    var lines := Split(output.value, '\n');
    var i := 0;
    while i < |lines|
      invariant 0 <= i <= |lines|
      invariant FirstMapped(lines[i..], mac) == FirstMapped(lines, mac)
    {
      var ip, hw := ScanWords(Fields(lines[i]));
      if ip != "" && hw != "" && hw != "(incomplete)" {
        var same := MacEqual(hw, mac);
        if same {
          return ip;
        }
      }
      i := i + 1;
    }
    return "";
  }

  /* ---------- what an ARP table says ---------- */

  /** A line of the table: `name (ip) at hw`, then other words. */
  datatype Entry = Entry(name: string, ip: string, hw: Option<seq<Byte>>, rest: seq<string>)

  /** A word the scan has no interest in. */
  ghost predicate PlainWord(word: string) {
    IsWord(word) && word != "at" && forall inner :: word != ['('] + inner + [')']
  }

  lemma ParenthesisedIff(word: string)
    ensures Parenthesised(word) <==> exists inner :: word == ['('] + inner + [')']
  {
    if Parenthesised(word) {
      assert word == ['('] + word[1..|word| - 1] + [')'];
    }
  }

  ghost predicate EntryOk(e: Entry) {
    && PlainWord(e.name) && (forall i :: 0 <= i < |e.rest| ==> PlainWord(e.rest[i]))
    && IsWord(e.ip) && !IsParen(e.ip[0]) && !IsParen(e.ip[|e.ip| - 1])
    && (e.hw.Some? ==> e.hw.value != [])
  }

  ghost function HardwareText(e: Entry): string
    requires EntryOk(e)
  {
    if e.hw.Some? then RenderMac(e.hw.value) else "(incomplete)"
  }

  ghost function WordsOf(e: Entry): seq<string>
    requires EntryOk(e)
  {
    [e.name, ['('] + e.ip + [')'], "at", HardwareText(e)] + e.rest
  }

  ghost function LineOf(e: Entry): string
    requires EntryOk(e)
  {
    Join(WordsOf(e), ' ')
  }

  lemma {:induction false} TrimParensRight(word: string)
    requires word != "" && !IsParen(word[0]) && !IsParen(word[|word| - 1])
    ensures TrimParens(['('] + word + [')']) == word
  {
    var s, tail := ['('] + word + [')'], word + [')'];
    assert s[1..] == tail && tail[..|word|] == word;
    assert TrimParens(s) == TrimParens(tail) == TrimParens(word);
  }

  lemma MacIsPlainWord(mac: seq<Byte>)
    requires mac != []
    ensures PlainWord(RenderMac(mac)) && RenderMac(mac) != "(incomplete)"
  {
    RenderMacChars(mac);
    ParenthesisedIff(RenderMac(mac));
    assert "at"[1] == 't' && "(incomplete)"[0] == '(';
  }

  lemma {:induction false} PlainTail(head: seq<string>, rest: seq<string>)
    requires |head| >= 2 && head[|head| - 1] != "at"
    requires forall i :: 0 <= i < |rest| ==> PlainWord(rest[i])
    ensures AddressOf(head + rest) == AddressOf(head) && HardwareOf(head + rest) == HardwareOf(head)
  {
    if rest == [] {
      assert head + rest == head;
    } else {
      ParenthesisedIff(rest[|rest| - 1]);
      PlainTail(head, rest[..|rest| - 1]);
      assert (head + rest)[..|head + rest| - 1] == head + rest[..|rest| - 1];
    }
  }

  /** A line reads back as the address and hardware address it was written with. */
  lemma LineRoundTrip(e: Entry)
    requires EntryOk(e)
    ensures Fields(LineOf(e)) == WordsOf(e)
    ensures HardwareOf(WordsOf(e)) == HardwareText(e)
    ensures e.hw.Some? ==> AddressOf(WordsOf(e)) == e.ip
  {
    var head := [e.name, ['('] + e.ip + [')'], "at", HardwareText(e)];
    if e.hw.Some? {
      MacIsPlainWord(e.hw.value);
      TrimParensRight(e.ip);
      assert head[..3][..2] == head[..2];
      assert AddressOf(head) == AddressOf(head[..3]) == AddressOf(head[..2]) == TrimParens(head[1]);
    }
    PlainTail(head, e.rest);
    FieldsJoin(WordsOf(e));
  }

  lemma EntryMapsIff(e: Entry, mac: seq<Byte>)
    requires EntryOk(e)
    ensures Maps(Fields(LineOf(e)), mac) <==> e.hw == Some(mac)
  {
    LineRoundTrip(e);
    if e.hw.Some? {
      MacIsPlainWord(e.hw.value);
      MacRoundTrip(e.hw.value, mac, "");
    }
  }

  /** The address of the first entry with this hardware address, or empty. */
  function FirstEntry(entries: seq<Entry>, mac: seq<Byte>): string
    decreases |entries|
  {
    if entries == [] then ""
    else if entries[0].hw == Some(mac) then entries[0].ip
    else FirstEntry(entries[1..], mac)
  }

  ghost function LinesOf(entries: seq<Entry>): (lines: seq<string>)
    requires forall i :: 0 <= i < |entries| ==> EntryOk(entries[i])
    ensures |lines| == |entries| && forall i :: 0 <= i < |entries| ==> lines[i] == LineOf(entries[i])
  {
    seq(|entries|, i requires 0 <= i < |entries| => LineOf(entries[i]))
  }

  lemma FirstMappedNext(e: Entry, rest: seq<string>, mac: seq<Byte>)
    requires EntryOk(e)
    ensures FirstMapped([LineOf(e)] + rest, mac) == if e.hw == Some(mac) then e.ip else FirstMapped(rest, mac)
  {
    EntryMapsIff(e, mac);
    LineRoundTrip(e);
    assert ([LineOf(e)] + rest)[1..] == rest;
  }

  lemma {:induction false} FirstMappedIsFirstEntry(entries: seq<Entry>, mac: seq<Byte>)
    requires forall i :: 0 <= i < |entries| ==> EntryOk(entries[i])
    ensures FirstMapped(LinesOf(entries) + [""], mac) == FirstEntry(entries, mac)
    decreases |entries|
  {
    if entries == [] {
      assert LinesOf(entries) + [""] == [""] && [""][1..] == [];
    } else {
      var rest := LinesOf(entries[1..]) + [""];
      FirstMappedIsFirstEntry(entries[1..], mac);
      FirstMappedNext(entries[0], rest, mac);
      assert LinesOf(entries) + [""] == [LineOf(entries[0])] + rest;
    }
  }

  /** Looking an address up in any ARP table, each entry on a line of its own, finds the
    * first entry for it. */
  lemma LookupFindsFirst(entries: seq<Entry>, mac: seq<Byte>)
    requires forall i :: 0 <= i < |entries| ==> EntryOk(entries[i]) && '\n' !in LineOf(entries[i])
    ensures FirstMapped(Split(Join(LinesOf(entries) + [""], '\n'), '\n'), mac) == FirstEntry(entries, mac)
  {
    SplitJoin(LinesOf(entries) + [""], '\n');
    FirstMappedIsFirstEntry(entries, mac);
  }
}
