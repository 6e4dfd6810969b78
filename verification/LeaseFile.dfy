/** Finding a guest's address in the DHCP leases file: `lookupLease` and `macEqual`. */
module LeaseFile {
  import opened Wrappers
  import opened Text

  type Byte = n: nat | n < 256

  /* ---------- hardware addresses ---------- */

  function HexValue(c: char): Option<nat> {
    if '0' <= c <= '9' then Some((c - '0') as nat)
    else if 'a' <= c <= 'f' then Some((c - 'a') as nat + 10)
    else if 'A' <= c <= 'F' then Some((c - 'A') as nat + 10)
    else None
  }

  /** `strconv.ParseUint(p, 16, 8)`: hexadecimal digits of a value below 256. */
  function ParseHex(p: string): Option<nat> {
    if p == "" then None
    else
      var low := HexValue(p[|p| - 1]);
      if low.None? then None
      else if |p| == 1 then low
      else
        var high := ParseHex(p[..|p| - 1]);
        if high.None? then None else Some(high.value * 16 + low.value)
  }

  /** The sixteen digits by code point, in either case, and nothing else. */
  lemma HexTable(c: char, d: nat)
    ensures HexValue(c) == Some(d) <==>
              var n := c as int;
              (d < 10 && n == 48 + d) || (10 <= d < 16 && (n == 97 + d - 10 || n == 65 + d - 10))
  {
  }

  /** The value of the digits read so far, and of one more. */
  lemma ParseHexSnoc(p: string, c: char)
    requires HexValue(c).Some?
    ensures ParseHex([c]) == HexValue(c)
    ensures ParseHex(p).Some? ==> ParseHex(p + [c]) == Some(ParseHex(p).value * 16 + HexValue(c).value)
  {
    assert (p + [c])[..|p|] == p;
  }

  predicate SamePart(p: string, b: Byte) {
    ParseHex(p) == Some(b)
  }

  /** The field without its type prefix, cut at colons, lists the address byte by byte. */
  predicate MacMatches(hwField: string, mac: seq<Byte>) {
    var cut := Cut(hwField, ',');
    var parts := Split(if cut.found then cut.after else hwField, ':');
    |parts| == |mac| && forall i :: 0 <= i < |parts| ==> SamePart(parts[i], mac[i])
  }

  method MacEqual(hwField: string, mac: seq<Byte>) returns (same: bool)
    ensures same <==> MacMatches(hwField, mac)
  {
    var s := hwField;
    var cut := Cut(s, ',');
    if cut.found {
      s := cut.after;
    }
    var parts := Split(s, ':');
    if |parts| != |mac| {
      return false;
    }
    var i := 0;
    while i < |parts|
      invariant 0 <= i <= |parts|
      invariant forall j :: 0 <= j < i ==> SamePart(parts[j], mac[j])
    {
      var v := ParseHex(parts[i]);
      if v.None? || v.value != mac[i] {
        assert !SamePart(parts[i], mac[i]);
        return false;
      }
      i := i + 1;
    }
    return true;
  }

  function HexChar(d: nat): char
    requires d < 16
  {
    if d < 10 then '0' + (d as char) else 'a' + ((d - 10) as char)
  }

  /** Hexadecimal without leading zeros, the way the leases file writes bytes. */
  function MinimalHex(b: Byte): string {
    if b < 16 then [HexChar(b)] else [HexChar(b / 16), HexChar(b % 16)]
  }

  function MinimalHexes(mac: seq<Byte>): (parts: seq<string>)
    ensures |parts| == |mac|
  {
    seq(|mac|, i requires 0 <= i < |mac| => MinimalHex(mac[i]))
  }

  function RenderMac(mac: seq<Byte>): string {
    Join(MinimalHexes(mac), ':')
  }

  lemma ParseMinimalHex(b: Byte)
    ensures ParseHex(MinimalHex(b)) == Some(b)
    ensures ':' !in MinimalHex(b) && ',' !in MinimalHex(b)
  {
    var s := MinimalHex(b);
    if b >= 16 {
      assert s[..1] == [HexChar(b / 16)];
      assert ParseHex([HexChar(b / 16)]) == Some(b / 16);
    }
  }

  lemma {:induction false} JoinLacks(parts: seq<string>, sep: char, c: char)
    requires c != sep && forall i :: 0 <= i < |parts| ==> c !in parts[i]
    ensures c !in Join(parts, sep)
  {
    if |parts| > 1 {
      JoinLacks(parts[1..], sep, c);
    }
  }

  predicate MacChars(text: string) {
    forall i :: 0 <= i < |text| ==> IsLowerHex(text[i]) || text[i] == ':'
  }

  lemma {:induction false} JoinMacChars(parts: seq<string>)
    requires forall i :: 0 <= i < |parts| ==> MacChars(parts[i])
    ensures MacChars(Join(parts, ':'))
  {
    if |parts| > 1 {
      JoinMacChars(parts[1..]);
    }
  }

  lemma RenderMacChars(mac: seq<Byte>)
    requires mac != []
    ensures RenderMac(mac) != "" && MacChars(RenderMac(mac)) && NoSpace(RenderMac(mac))
  {
    var parts := MinimalHexes(mac);
    assert parts[0] == MinimalHex(mac[0]) && parts[0] != "";
    forall i | 0 <= i < |parts|
      ensures MacChars(parts[i])
    {
      assert parts[i] == MinimalHex(mac[i]);
    }
    JoinMacChars(parts);
  }

  /** A rendered address, with or without a type prefix, matches exactly itself. */
  lemma MacRoundTrip(a: seq<Byte>, b: seq<Byte>, prefix: string)
    requires a != [] && ',' !in prefix
    ensures MacMatches(RenderMac(a), b) <==> a == b
    ensures MacMatches(prefix + "," + RenderMac(a), b) <==> a == b
  {
    var parts := MinimalHexes(a);
    forall i | 0 <= i < |a|
      ensures ':' !in parts[i] && ',' !in parts[i] && ParseHex(parts[i]) == Some(a[i])
    {
      ParseMinimalHex(a[i]);
    }
    SplitJoin(parts, ':');
    JoinLacks(parts, ':', ',');
    CutNone(RenderMac(a), ',');
    CutAt(prefix, RenderMac(a), ',');
    assert prefix + "," + RenderMac(a) == prefix + [','] + RenderMac(a);
    assert (forall i :: 0 <= i < |parts| && |a| == |b| ==> SamePart(parts[i], b[i])) && |a| == |b| ==> a == b by {
      assert forall i :: 0 <= i < |a| && |a| == |b| && SamePart(parts[i], b[i]) ==> a[i] == b[i];
    }
  }

  /* ---------- the scan ---------- */

  /** The scan's variables: the address and hardware address of the block being read,
    * and the last match so far. */
  datatype Scan = Scan(ip: string, hw: string, found: string)

  function ScanLine(st: Scan, raw: string, mac: seq<Byte>): Scan {
    var line := Trim(raw);
    if line == "{" then st.(ip := "", hw := "")
    else if "ip_address=" <= line then st.(ip := line[11..])
    else if "hw_address=" <= line then st.(hw := line[11..])
    else if line == "}" && st.ip != "" && MacMatches(st.hw, mac) then st.(found := st.ip)
    else st
  }

  function ScanLines(st: Scan, lines: seq<string>, mac: seq<Byte>): Scan
    decreases |lines|
  {
    if lines == [] then st else ScanLines(ScanLine(st, lines[0], mac), lines[1..], mac)
  }

  method LookupLease(data: Option<string>, mac: seq<Byte>) returns (found: string)
    ensures data.None? ==> found == ""
    ensures data.Some? ==> found == ScanLines(Scan("", "", ""), Split(data.value, '\n'), mac).found
  {
    if data.None? {
      return "";
    }
    var lines := Split(data.value, '\n');
    var ip, hw := "", "";
    found := "";
    var i := 0;
    while i < |lines|
      invariant 0 <= i <= |lines|
      invariant ScanLines(Scan("", "", ""), lines, mac) == ScanLines(Scan(ip, hw, found), lines[i..], mac)
    {
      var line := Trim(lines[i]);
      if line == "{" {
        ip, hw := "", "";
      } else if "ip_address=" <= line {
        ip := line[11..];
      } else if "hw_address=" <= line {
        hw := line[11..];
      } else if line == "}" {
        var same := MacEqual(hw, mac);
        if ip != "" && same {
          found := ip;
        }
      }
      i := i + 1;
    }
  }

  /* ---------- what a leases file says ---------- */

  datatype Line = Open | Close | Ip(value: string) | Hw(value: string) | Other(text: string)

  /** A line as it stands in the file, with white space around it. */
  datatype Row = Row(left: string, line: Line, right: string)

  function LineText(line: Line): string {
    match line
    case Open => "{"
    case Close => "}"
    case Ip(v) => "ip_address=" + v
    case Hw(v) => "hw_address=" + v
    case Other(text) => text
  }

  function RowText(row: Row): string {
    row.left + LineText(row.line) + row.right
  }

  /** White space around a line that is what it says it is. */
  predicate RowOk(row: Row) {
    && AllSpace(row.left) && AllSpace(row.right) && '\n' !in RowText(row)
    && Trimmed(LineText(row.line))
    && (row.line.Other? ==>
          && row.line.text !in {"{", "}"}
          && !("ip_address=" <= row.line.text) && !("hw_address=" <= row.line.text))
  }

  /** A lease: other lines, an opening brace, the body, a closing brace. */
  datatype Lease = Lease(noise: seq<Row>, open: Row, body: seq<Row>, close: Row)

  predicate LeaseOk(l: Lease) {
    && (forall r :: r in l.noise ==> RowOk(r) && r.line.Other?)
    && (forall r :: r in l.body ==> RowOk(r) && !r.line.Open? && !r.line.Close?)
    && RowOk(l.open) && l.open.line.Open? && RowOk(l.close) && l.close.line.Close?
  }

  function RowsOf(leases: seq<Lease>): seq<Row> {
    if leases == [] then []
    else leases[0].noise + [leases[0].open] + leases[0].body + [leases[0].close] + RowsOf(leases[1..])
  }

  function Texts(rows: seq<Row>): (ts: seq<string>)
    ensures |ts| == |rows| && forall i :: 0 <= i < |rows| ==> ts[i] == RowText(rows[i])
  {
    seq(|rows|, i requires 0 <= i < |rows| => RowText(rows[i]))
  }

  /** The last address and hardware address a body gives. */
  function IpOf(body: seq<Row>): string {
    if body == [] then ""
    else if body[|body| - 1].line.Ip? then body[|body| - 1].line.value
    else IpOf(body[..|body| - 1])
  }

  function HwOf(body: seq<Row>): string {
    if body == [] then ""
    else if body[|body| - 1].line.Hw? then body[|body| - 1].line.value
    else HwOf(body[..|body| - 1])
  }

  predicate LeasedTo(l: Lease, mac: seq<Byte>) {
    IpOf(l.body) != "" && MacMatches(HwOf(l.body), mac)
  }

  /** The address of the last lease to this hardware address, or empty. */
  function LatestLease(leases: seq<Lease>, mac: seq<Byte>): string {
    if leases == [] then ""
    else if LeasedTo(leases[|leases| - 1], mac) then IpOf(leases[|leases| - 1].body)
    else LatestLease(leases[..|leases| - 1], mac)
  }

  /** The scan of one line, read off the line's meaning. */
  function ScanMeaning(st: Scan, line: Line, mac: seq<Byte>): Scan {
    match line
    case Open => st.(ip := "", hw := "")
    case Close => if st.ip != "" && MacMatches(st.hw, mac) then st.(found := st.ip) else st
    case Ip(v) => st.(ip := v)
    case Hw(v) => st.(hw := v)
    case Other(_) => st
  }

  lemma ScanRow(st: Scan, row: Row, mac: seq<Byte>)
    requires RowOk(row)
    ensures ScanLine(st, RowText(row), mac) == ScanMeaning(st, row.line, mac)
  {
    TrimPadded(row.left, LineText(row.line), row.right);
    assert "{" != "}" && !("ip_address=" <= "{") && !("ip_address=" <= "}") && !("hw_address=" <= "}");
    if row.line.Hw? {
      assert LineText(row.line)[0] == 'h' && "ip_address="[0] == 'i';
    }
  }

  lemma {:induction false} ScanAppend(st: Scan, a: seq<string>, b: seq<string>, mac: seq<Byte>)
    ensures ScanLines(st, a + b, mac) == ScanLines(ScanLines(st, a, mac), b, mac)
    decreases |a|
  {
    if a == [] {
      assert a + b == b;
    } else {
      ScanAppend(ScanLine(st, a[0], mac), a[1..], b, mac);
      assert (a + b)[1..] == a[1..] + b;
    }
  }

  lemma {:induction false} ScanNoise(st: Scan, rows: seq<Row>, mac: seq<Byte>)
    requires forall r :: r in rows ==> RowOk(r) && r.line.Other?
    ensures ScanLines(st, Texts(rows), mac) == st
    decreases |rows|
  {
    if rows != [] {
      ScanRow(st, rows[0], mac);
      SameTexts(Texts(rows)[1..], Texts(rows[1..]));
      ScanNoise(st, rows[1..], mac);
    }
  }

  lemma TextsAppend(a: seq<Row>, b: seq<Row>)
    ensures Texts(a + b) == Texts(a) + Texts(b)
  {
    SameTexts(Texts(a + b), Texts(a) + Texts(b));
  }

  lemma SameTexts(xs: seq<string>, ys: seq<string>)
    requires |xs| == |ys| && forall i :: 0 <= i < |xs| ==> xs[i] == ys[i]
    ensures xs == ys
  {
  }

  lemma ScanSnoc(st: Scan, rows: seq<Row>, row: Row, mac: seq<Byte>)
    requires RowOk(row)
    ensures ScanLines(st, Texts(rows + [row]), mac) == ScanMeaning(ScanLines(st, Texts(rows), mac), row.line, mac)
  {
    var before := ScanLines(st, Texts(rows), mac);
    TextsAppend(rows, [row]);
    assert Texts([row]) == [RowText(row)];
    ScanAppend(st, Texts(rows), [RowText(row)], mac);
    ScanRow(before, row, mac);
    assert [RowText(row)][1..] == [];
    assert ScanLines(before, [RowText(row)], mac) == ScanLine(before, RowText(row), mac);
  }

  lemma BodyMeaning(rows: seq<Row>, row: Row, found: string, mac: seq<Byte>)
    requires !row.line.Open? && !row.line.Close?
    ensures ScanMeaning(Scan(IpOf(rows), HwOf(rows), found), row.line, mac)
            == Scan(IpOf(rows + [row]), HwOf(rows + [row]), found)
  {
    assert (rows + [row])[..|rows|] == rows;
  }

  lemma {:induction false} ScanBody(st: Scan, rows: seq<Row>, mac: seq<Byte>)
    requires st.ip == "" && st.hw == ""
    requires forall r :: r in rows ==> RowOk(r) && !r.line.Open? && !r.line.Close?
    ensures ScanLines(st, Texts(rows), mac) == Scan(IpOf(rows), HwOf(rows), st.found)
  {
    if rows != [] {
      var init, last := rows[..|rows| - 1], rows[|rows| - 1];
      assert rows == init + [last] && last in rows;
      ScanBody(st, init, mac);
      ScanSnoc(st, init, last, mac);
      BodyMeaning(init, last, st.found, mac);
    }
  }

  lemma ScanLease(st: Scan, l: Lease, mac: seq<Byte>)
    requires LeaseOk(l)
    ensures var after := ScanLines(st, Texts(l.noise + [l.open] + l.body + [l.close]), mac);
            after == Scan(IpOf(l.body), HwOf(l.body), if LeasedTo(l, mac) then IpOf(l.body) else st.found)
  {
    ScanNoise(st, l.noise, mac);
    ScanSnoc(st, l.noise, l.open, mac);
    TextsAppend(l.noise + [l.open], l.body);
    ScanAppend(st, Texts(l.noise + [l.open]), Texts(l.body), mac);
    ScanBody(Scan("", "", st.found), l.body, mac);
    ScanSnoc(st, l.noise + [l.open] + l.body, l.close, mac);
  }

  lemma {:induction false} RowsSnoc(leases: seq<Lease>, l: Lease)
    ensures RowsOf(leases + [l]) == RowsOf(leases) + (l.noise + [l.open] + l.body + [l.close])
  {
    if leases == [] {
      assert [l][1..] == [];
    } else {
      RowsSnoc(leases[1..], l);
      assert (leases + [l])[1..] == leases[1..] + [l];
    }
  }

  lemma ScanNext(init: seq<Lease>, last: Lease, mac: seq<Byte>)
    requires LeaseOk(last)
    ensures ScanLines(Scan("", "", ""), Texts(RowsOf(init + [last])), mac).found
            == if LeasedTo(last, mac) then IpOf(last.body)
               else ScanLines(Scan("", "", ""), Texts(RowsOf(init)), mac).found
  {
    RowsSnoc(init, last);
    var rows := last.noise + [last.open] + last.body + [last.close];
    TextsAppend(RowsOf(init), rows);
    ScanAppend(Scan("", "", ""), Texts(RowsOf(init)), Texts(rows), mac);
    ScanLease(ScanLines(Scan("", "", ""), Texts(RowsOf(init)), mac), last, mac);
  }

  lemma {:induction false} ScanLeases(leases: seq<Lease>, mac: seq<Byte>)
    requires forall l :: l in leases ==> LeaseOk(l)
    ensures ScanLines(Scan("", "", ""), Texts(RowsOf(leases)), mac).found == LatestLease(leases, mac)
  {
    if leases != [] {
      var init, last := leases[..|leases| - 1], leases[|leases| - 1];
      ScanLeases(init, mac);
      assert leases == init + [last];
      ScanNext(init, last, mac);
    }
  }

  /** The text of a leases file: any leases, then any other lines. */
  function Render(leases: seq<Lease>, tail: seq<Row>): string {
    Join(Texts(RowsOf(leases) + tail), '\n')
  }

  lemma {:induction false} RowsAreLines(leases: seq<Lease>)
    requires forall l :: l in leases ==> LeaseOk(l)
    ensures forall r :: r in RowsOf(leases) ==> RowOk(r)
  {
    if leases != [] {
      RowsAreLines(leases[1..]);
      var l := leases[0];
      assert l in leases;
      forall r | r in RowsOf(leases)
        ensures RowOk(r)
      {
        assert r in l.noise || r == l.open || r in l.body || r == l.close || r in RowsOf(leases[1..]);
      }
    }
  }

  lemma EmptyFile(leases: seq<Lease>, tail: seq<Row>, mac: seq<Byte>)
    requires RowsOf(leases) + tail == []
    ensures ScanLines(Scan("", "", ""), Split(Render(leases, tail), '\n'), mac).found == LatestLease(leases, mac) == ""
  {
    assert leases == [];
    assert Split("", '\n') == [""] && [""][1..] == [];
    assert ScanLine(Scan("", "", ""), "", mac) == Scan("", "", "");
  }

  /** Looking an address up in any leases file finds the last lease to it. */
  lemma LookupFindsLatest(leases: seq<Lease>, tail: seq<Row>, mac: seq<Byte>)
    requires forall l :: l in leases ==> LeaseOk(l)
    requires forall r :: r in tail ==> RowOk(r) && r.line.Other?
    ensures ScanLines(Scan("", "", ""), Split(Render(leases, tail), '\n'), mac).found == LatestLease(leases, mac)
  {
    var rows := RowsOf(leases) + tail;
    if rows == [] {
      EmptyFile(leases, tail, mac);
      return;
    }
    RowsAreLines(leases);
    assert forall i :: 0 <= i < |rows| ==> rows[i] in rows && RowOk(rows[i]);
    SplitJoin(Texts(rows), '\n');
    TextsAppend(RowsOf(leases), tail);
    ScanAppend(Scan("", "", ""), Texts(RowsOf(leases)), Texts(tail), mac);
    ScanLeases(leases, mac);
    ScanNoise(ScanLines(Scan("", "", ""), Texts(RowsOf(leases)), mac), tail, mac);
  }

  lemma ScanIndented(st: Scan, line: Line, raw: string, mac: seq<Byte>)
    requires RowOk(Row("\t", line, "")) && raw == "\t" + LineText(line)
    ensures ScanLine(st, raw, mac) == ScanMeaning(st, line, mac)
  {
    assert RowText(Row("\t", line, "")) == raw;
    ScanRow(st, Row("\t", line, ""), mac);
  }

  lemma ScanCons(st: Scan, line: string, rest: seq<string>, mac: seq<Byte>)
    ensures ScanLines(st, [line] + rest, mac) == ScanLines(ScanLine(st, line, mac), rest, mac)
  {
    assert ([line] + rest)[1..] == rest;
  }

  lemma BareBraces(st: Scan, mac: seq<Byte>)
    ensures ScanLine(st, "{", mac) == st.(ip := "", hw := "")
    ensures ScanLine(st, "}", mac) == if st.ip != "" && MacMatches(st.hw, mac) then st.(found := st.ip) else st
  {
    TrimPadded("", "{", "");
    TrimPadded("", "}", "");
    assert "" + "{" + "" == "{" && "" + "}" + "" == "}";
  }

  lemma FourLines(s0: Scan, s1: Scan, s2: Scan, s3: Scan, s4: Scan, a: string, b: string, c: string, d: string, mac: seq<Byte>)
    requires ScanLine(s0, a, mac) == s1 && ScanLine(s1, b, mac) == s2
    requires ScanLine(s2, c, mac) == s3 && ScanLine(s3, d, mac) == s4
    ensures ScanLines(s0, [a, b, c, d], mac) == s4
  {
    ScanCons(s3, d, [], mac);
    ScanCons(s2, c, [d], mac);
    ScanCons(s1, b, [c, d], mac);
    ScanCons(s0, a, [b, c, d], mac);
    assert [a] + [b, c, d] == [a, b, c, d] && [b] + [c, d] == [b, c, d] && [c] + [d] == [c, d] && [d] + [] == [d];
  }

  lemma HardwareRow(hw: string)
    requires hw != "" && NoSpace(hw)
    ensures RowOk(Row("\t", Hw(hw), ""))
  {
    assert IsSpace('\t') && IsSpace('\n');
    var text := "hw_address=" + hw;
    assert text[0] == 'h' && text[|text| - 1] == hw[|hw| - 1];
  }

  lemma HardwareMatches(mac: seq<Byte>)
    requires mac != []
    ensures NoSpace("1," + RenderMac(mac)) && MacMatches("1," + RenderMac(mac), mac)
  {
    RenderMacChars(mac);
    MacRoundTrip(mac, mac, "1");
    assert "1," + RenderMac(mac) == "1" + "," + RenderMac(mac);
  }

  lemma TabbedIp(st: Scan, ip: string, mac: seq<Byte>)
    requires Trimmed(ip) && ip != "" && '\n' !in ip
    ensures ScanLine(st, "\tip_address=" + ip, mac) == st.(ip := ip)
  {
    assert IsSpace('\t');
    assert "\tip_address=" + ip == "\t" + ("ip_address=" + ip);
    ScanIndented(st, Ip(ip), "\tip_address=" + ip, mac);
  }

  lemma TabbedHw(st: Scan, hw: string, mac: seq<Byte>)
    requires RowOk(Row("\t", Hw(hw), ""))
    ensures ScanLine(st, "\thw_address=" + hw, mac) == st.(hw := hw)
  {
    assert "\thw_address=" + hw == "\t" + ("hw_address=" + hw);
    ScanIndented(st, Hw(hw), "\thw_address=" + hw, mac);
  }

  /** A lease as the DHCP server writes it, one tab before each field. */
  lemma TabbedLease(ip: string, mac: seq<Byte>)
    requires ip != "" && Trimmed(ip) && '\n' !in ip && mac != []
    ensures ScanLines(Scan("", "", ""), ["{", "\tip_address=" + ip, "\thw_address=" + ("1," + RenderMac(mac)), "}"], mac).found == ip
  {
    var start, hw := Scan("", "", ""), "1," + RenderMac(mac);
    HardwareMatches(mac);
    HardwareRow(hw);
    BareBraces(start, mac);
    TabbedIp(start, ip, mac);
    TabbedHw(start.(ip := ip), hw, mac);
    BareBraces(Scan(ip, hw, ""), mac);
    FourLines(start, start, start.(ip := ip), Scan(ip, hw, ""), Scan(ip, hw, ip),
              "{", "\tip_address=" + ip, "\thw_address=" + hw, "}", mac);
  }
}
