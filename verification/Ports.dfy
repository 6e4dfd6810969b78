/** Port forwards, from the text of a `--port` flag to QEMU's `-nic` argument: the
  * parser, the merge into the configuration, `Validate`, and `UserNet.NicArgs`. */
module Ports {
  import opened Wrappers
  import opened Text

  datatype Port = Port(name: string, protocol: string, host: int, guest: int)

  predicate PortInRange(n: int) {
    1 <= n <= 65535
  }

  predicate IsProtocol(text: string) {
    text == "tcp" || text == "udp"
  }

  predicate InRange(p: Port) {
    PortInRange(p.host) && PortInRange(p.guest)
  }

  predicate AllInRange(ports: seq<Port>) {
    forall i :: 0 <= i < |ports| ==> InRange(ports[i])
  }

  /* ---------- the --port flag ---------- */

  datatype SpecError = InvalidProtocol(text: string) | NotAPair(text: string)
                     | InvalidHost(text: string) | InvalidGuest(text: string)

  function PortNumber(text: string): (n: Option<int>)
    ensures n.Some? ==> PortInRange(n.value)
  {
    var v := Atoi(Trim(text));
    if v.Some? && PortInRange(v.value) then v else None
  }

  function ParsePair(s: string, proto: string): Result<Port, SpecError> {
    var cut := Cut(s, ':');
    if !cut.found then Err(NotAPair(s))
    else if PortNumber(cut.before).None? then Err(InvalidHost(cut.before))
    else if PortNumber(cut.after).None? then Err(InvalidGuest(cut.after))
    else Ok(Port("", proto, PortNumber(cut.before).value, PortNumber(cut.after).value))
  }

  function ParseSpec(spec: string): Result<Port, SpecError> {
    var i := LastIndex(spec, '/');
    var proto := if i >= 0 then ToLower(spec[i + 1..]) else "tcp";
    if proto != "tcp" && proto != "udp" then Err(InvalidProtocol(proto))
    else ParsePair(if i >= 0 then spec[..i] else spec, proto)
  }

  method ParsePortSpec(spec: string) returns (r: Result<Port, SpecError>)
    ensures r == ParseSpec(spec)
  {
    var s := spec;
    var proto := "tcp";
    var i := LastIndex(s, '/');
    if i >= 0 {
      proto := ToLower(s[i + 1..]);
      s := s[..i];
    }
    if proto != "tcp" && proto != "udp" {
      return Err(InvalidProtocol(proto));
    }
    r := ParseHostGuest(s, proto);
  }

  /** The rest of `ParsePortSpec`, once the protocol is known. */
  method ParseHostGuest(s: string, proto: string) returns (r: Result<Port, SpecError>)
    ensures r == ParsePair(s, proto)
  {
    var cut := Cut(s, ':');
    if !cut.found {
      return Err(NotAPair(s));
    }
    var h := Atoi(Trim(cut.before));
    if h.None? || h.value <= 0 || h.value > 65535 {
      return Err(InvalidHost(cut.before));
    }
    var g := Atoi(Trim(cut.after));
    if g.None? || g.value <= 0 || g.value > 65535 {
      return Err(InvalidGuest(cut.after));
    }
    return Ok(Port("", proto, h.value, g.value));
  }

  /** Two port numbers around a colon, white space around either allowed. */
  predicate IsPair(s: string, host: string, guest: string, p: Port) {
    s == host + [':'] + guest && PortNumber(host) == Some(p.host) && PortNumber(guest) == Some(p.guest)
  }

  /** Nothing (for tcp), or a slash and the protocol in either case. */
  predicate IsSuffix(suffix: string, proto: string) {
    if suffix == "" then proto == "tcp"
    else suffix[0] == '/' && ToLower(suffix[1..]) == proto && IsProtocol(proto)
  }

  /** The texts that name a forward. */
  ghost predicate Names(spec: string, s: string, host: string, guest: string, suffix: string, p: Port) {
    p.name == "" && spec == s + suffix && IsPair(s, host, guest, p) && IsSuffix(suffix, p.protocol)
  }

  lemma PortNumberChars(text: string)
    requires PortNumber(text).Some?
    ensures ':' !in text && '/' !in text
  {
    TrimKeeps(text);
    AtoiChars(Trim(text));
  }

  lemma ProtocolHasNoSlash(text: string, proto: string)
    requires ToLower(text) == proto && IsProtocol(proto)
    ensures '/' !in text
  {
    assert |proto| == 3 && proto[0] != '/' && proto[1] != '/' && proto[2] != '/';
    assert LowerChar('/') == '/';
  }

  lemma PairAccepted(s: string, host: string, guest: string, proto: string, p: Port)
    requires IsPair(s, host, guest, p) && p.name == "" && p.protocol == proto
    ensures ParsePair(s, proto) == Ok(p) && '/' !in s
  {
    PortNumberChars(host);
    PortNumberChars(guest);
    CutAt(host, guest, ':');
  }

  lemma PairNamed(s: string, proto: string)
    requires ParsePair(s, proto).Ok?
    ensures IsPair(s, Cut(s, ':').before, Cut(s, ':').after, ParsePair(s, proto).value)
  {
    CutParts(s, ':');
  }

  lemma NamedIsAccepted(spec: string, s: string, host: string, guest: string, suffix: string, p: Port)
    requires Names(spec, s, host, guest, suffix, p)
    ensures ParseSpec(spec) == Ok(p)
  {
    PairAccepted(s, host, guest, p.protocol, p);
    if suffix == "" {
      LastIndexNone(s, '/');
      assert spec == s;
    } else {
      var proto := suffix[1..];
      ProtocolHasNoSlash(proto, p.protocol);
      assert spec == s + ['/'] + proto;
      LastIndexAt(s, proto, '/');
      assert spec[..|s|] == s && spec[|s| + 1..] == proto;
    }
  }

  lemma SuffixOf(spec: string, i: nat, proto: string)
    requires i < |spec| && spec[i] == '/' && ToLower(spec[i + 1..]) == proto && IsProtocol(proto)
    ensures IsSuffix(spec[i..], proto)
  {
    assert spec[i..][1..] == spec[i + 1..];
  }

  lemma AcceptedPlain(spec: string)
    requires ParseSpec(spec).Ok? && LastIndex(spec, '/') < 0
    ensures Names(spec, spec, Cut(spec, ':').before, Cut(spec, ':').after, "", ParseSpec(spec).value)
  {
    PairNamed(spec, "tcp");
    assert spec == spec + "";
  }

  lemma ParsedWithProtocol(spec: string, i: nat)
    requires ParseSpec(spec).Ok? && LastIndex(spec, '/') == i
    ensures IsProtocol(ToLower(spec[i + 1..]))
    ensures ParseSpec(spec) == ParsePair(spec[..i], ToLower(spec[i + 1..]))
  {
  }

  lemma NamesFrom(spec: string, i: nat, proto: string, p: Port)
    requires i < |spec| && IsSuffix(spec[i..], proto) && ParsePair(spec[..i], proto) == Ok(p)
    ensures Names(spec, spec[..i], Cut(spec[..i], ':').before, Cut(spec[..i], ':').after, spec[i..], p)
  {
    PairNamed(spec[..i], proto);
    assert spec == spec[..i] + spec[i..];
  }

  lemma AcceptedWithProtocol(spec: string, i: nat)
    requires ParseSpec(spec).Ok? && LastIndex(spec, '/') == i
    ensures Names(spec, spec[..i], Cut(spec[..i], ':').before, Cut(spec[..i], ':').after, spec[i..], ParseSpec(spec).value)
  {
    ParsedWithProtocol(spec, i);
    SuffixOf(spec, i, ToLower(spec[i + 1..]));
    NamesFrom(spec, i, ToLower(spec[i + 1..]), ParseSpec(spec).value);
  }

  lemma AcceptedIsNamed(spec: string) returns (s: string, suffix: string)
    requires ParseSpec(spec).Ok?
    ensures Names(spec, s, Cut(s, ':').before, Cut(s, ':').after, suffix, ParseSpec(spec).value)
  {
    var i := LastIndex(spec, '/');
    if i < 0 {
      AcceptedPlain(spec);
      s, suffix := spec, "";
    } else {
      AcceptedWithProtocol(spec, i);
      s, suffix := spec[..i], spec[i..];
    }
  }

  /** The parser accepts exactly the texts that name a forward, as that forward. */
  lemma AcceptsIffNames(spec: string, p: Port)
    ensures ParseSpec(spec) == Ok(p) <==> exists s, host, guest, suffix :: Names(spec, s, host, guest, suffix, p)
  {
    if ParseSpec(spec) == Ok(p) {
      var s, suffix := AcceptedIsNamed(spec);
      assert Names(spec, s, Cut(s, ':').before, Cut(s, ':').after, suffix, p);
    }
    if s, host, guest, suffix :| Names(spec, s, host, guest, suffix, p) {
      NamedIsAccepted(spec, s, host, guest, suffix, p);
    }
  }

  function RenderSpec(p: Port): string
    requires InRange(p)
  {
    (Itoa(p.host) + [':'] + Itoa(p.guest)) + (['/'] + p.protocol)
  }

  lemma PortNumberItoa(n: nat)
    requires PortInRange(n)
    ensures PortNumber(Itoa(n)) == Some(n)
  {
    AtoiItoa(n);
    DigitsAreWord(Itoa(n));
    TrimPadded("", Itoa(n), "");
    assert "" + Itoa(n) + "" == Itoa(n);
  }

  lemma ProtocolIsSuffix(proto: string)
    requires IsProtocol(proto)
    ensures IsSuffix(['/'] + proto, proto)
  {
    assert (['/'] + proto)[1..] == proto;
    assert |proto| == 3 && LowerChar(proto[0]) == proto[0] && LowerChar(proto[1]) == proto[1] && LowerChar(proto[2]) == proto[2];
    assert ToLower(proto) == proto;
  }

  /** Every forward is read back from its own text. */
  lemma SpecRoundTrip(p: Port)
    requires InRange(p) && p.name == "" && IsProtocol(p.protocol)
    ensures ParseSpec(RenderSpec(p)) == Ok(p)
  {
    PortNumberItoa(p.host);
    PortNumberItoa(p.guest);
    ProtocolIsSuffix(p.protocol);
    NamedIsAccepted(RenderSpec(p), Itoa(p.host) + [':'] + Itoa(p.guest), Itoa(p.host), Itoa(p.guest), ['/'] + p.protocol, p);
  }

  lemma ParsedInRange(spec: string)
    requires ParseSpec(spec).Ok?
    ensures InRange(ParseSpec(spec).value) && IsProtocol(ParseSpec(spec).value.protocol)
  {
    var s, suffix := AcceptedIsNamed(spec);
  }

  function Parsed(specs: seq<string>): (rs: seq<Result<Port, SpecError>>)
    ensures |rs| == |specs| && forall i :: 0 <= i < |specs| ==> rs[i] == ParseSpec(specs[i])
  {
    seq(|specs|, i requires 0 <= i < |specs| => ParseSpec(specs[i]))
  }

  /** The successes, in order; the failures are dropped. */
  function Successes<T, E>(rs: seq<Result<T, E>>): seq<T> {
    if rs == [] then []
    else Successes(rs[..|rs| - 1]) + if rs[|rs| - 1].Ok? then [rs[|rs| - 1].value] else []
  }

  function Accepted(specs: seq<string>): seq<Port> {
    Successes(Parsed(specs))
  }

  lemma SuccessesNext<T, E>(rs: seq<Result<T, E>>, i: nat)
    requires i < |rs|
    ensures Successes(rs[..i + 1]) == Successes(rs[..i]) + if rs[i].Ok? then [rs[i].value] else []
  {
    assert rs[..i + 1][..i] == rs[..i];
  }

  lemma {:induction false} SuccessesAreResults<T, E>(rs: seq<Result<T, E>>)
    ensures forall x :: x in Successes(rs) ==> Ok(x) in rs
  {
    if rs != [] {
      SuccessesAreResults(rs[..|rs| - 1]);
    }
  }

  lemma AcceptedInRange(specs: seq<string>)
    ensures AllInRange(Accepted(specs))
    ensures forall p :: p in Accepted(specs) ==> IsProtocol(p.protocol)
  {
    SuccessesAreResults(Parsed(specs));
    forall p | p in Accepted(specs)
      ensures InRange(p) && IsProtocol(p.protocol)
    {
      var i :| 0 <= i < |specs| && Parsed(specs)[i] == Ok(p);
      ParsedInRange(specs[i]);
    }
  }

  /** `Validate`'s range loop passes after the merge exactly when it passed before. */
  lemma MergedInRange(ports: seq<Port>, specs: seq<string>)
    ensures AllInRange(ports + Accepted(specs)) <==> AllInRange(ports)
  {
    AcceptedInRange(specs);
    var merged := ports + Accepted(specs);
    assert forall k :: 0 <= k < |ports| ==> merged[k] == ports[k];
  }

  function RenderSpecs(ports: seq<Port>): (specs: seq<string>)
    requires AllInRange(ports)
    ensures |specs| == |ports| && forall i :: 0 <= i < |ports| ==> specs[i] == RenderSpec(ports[i])
  {
    seq(|ports|, i requires 0 <= i < |ports| => RenderSpec(ports[i]))
  }

  lemma {:induction false} SuccessesOfAll<T, E>(xs: seq<T>, rs: seq<Result<T, E>>)
    requires |rs| == |xs| && forall i :: 0 <= i < |xs| ==> rs[i] == Ok(xs[i])
    ensures Successes(rs) == xs
  {
    if rs != [] {
      SuccessesOfAll(xs[..|xs| - 1], rs[..|rs| - 1]);
      assert xs == xs[..|xs| - 1] + [xs[|xs| - 1]];
    }
  }

  lemma AcceptedRoundTrip(ports: seq<Port>)
    requires AllInRange(ports)
    requires forall p :: p in ports ==> p.name == "" && IsProtocol(p.protocol)
    ensures Accepted(RenderSpecs(ports)) == ports
  {
    var rs := Parsed(RenderSpecs(ports));
    forall i | 0 <= i < |ports|
      ensures rs[i] == Ok(ports[i])
    {
      assert ports[i] in ports;
      SpecRoundTrip(ports[i]);
    }
    SuccessesOfAll(ports, rs);
  }

  /* ---------- forwards ---------- */

  datatype PortForward = PortForward(proto: string, hostIP: string, hostPort: int, guestPort: int)

  const IP_CONFIGS := {"cloud-init", "kernel-dhcp", "kernel-static", "none"}
  const BIND_ADDRESSES := {"127.0.0.1", "localhost", "0.0.0.0"}

  function OrElse(text: string, fallback: string): string {
    if text == "" then fallback else text
  }

  function Forwarded(ports: seq<Port>, bind: string): (fwds: seq<PortForward>)
    ensures |fwds| == |ports|
    ensures forall i :: 0 <= i < |ports| ==>
              fwds[i] == PortForward(OrElse(ports[i].protocol, "tcp"), bind, ports[i].host, ports[i].guest)
  {
    if ports == [] then []
    else
      Forwarded(ports[..|ports| - 1], bind)
      + [PortForward(OrElse(ports[|ports| - 1].protocol, "tcp"), bind, ports[|ports| - 1].host, ports[|ports| - 1].guest)]
  }

  /** The configured forwards in order, then the one for ssh when it is enabled. */
  function Forwards(ports: seq<Port>, bind: string, sshPort: int): seq<PortForward> {
    Forwarded(ports, bind) + if sshPort > 0 then [PortForward("tcp", bind, sshPort, 22)] else []
  }

  /** The guest port behind a host port: that of the last forward for it, or the port itself. */
  function GuestPortOf(fwds: seq<PortForward>, hostPort: int): int {
    if fwds == [] then hostPort
    else if fwds[|fwds| - 1].hostPort == hostPort then fwds[|fwds| - 1].guestPort
    else GuestPortOf(fwds[..|fwds| - 1], hostPort)
  }

  /** One forward for each port, in order, tcp unless the port says otherwise; then, when
    * ssh is enabled, one from its host port to port 22. */
  predicate AreForwards(fwds: seq<PortForward>, ports: seq<Port>, bind: string, sshPort: int) {
    && |fwds| == |ports| + (if sshPort > 0 then 1 else 0)
    && (forall i :: 0 <= i < |ports| ==>
          fwds[i] == PortForward(if ports[i].protocol == "" then "tcp" else ports[i].protocol, bind, ports[i].host, ports[i].guest))
    && (sshPort > 0 ==> fwds[|ports|] == PortForward("tcp", bind, sshPort, 22))
  }

  lemma ForwardsAre(ports: seq<Port>, bind: string, sshPort: int)
    ensures AreForwards(Forwards(ports, bind, sshPort), ports, bind, sshPort)
  {
  }

  /** A probed port becomes 22 when it is the ssh port, else the guest port of the last
    * forward for it, else it stays. */
  lemma {:induction false} ProbeMeaning(ports: seq<Port>, bind: string, hostPort: int)
    ensures forall i :: 0 <= i < |ports| && ports[i].host == hostPort && (forall j :: i < j < |ports| ==> ports[j].host != hostPort) ==>
              GuestPortOf(Forwarded(ports, bind), hostPort) == ports[i].guest
    ensures (forall i :: 0 <= i < |ports| ==> ports[i].host != hostPort) ==> GuestPortOf(Forwarded(ports, bind), hostPort) == hostPort
  {
    if ports != [] {
      var init := ports[..|ports| - 1];
      ProbeMeaning(init, bind, hostPort);
      assert Forwarded(ports, bind)[..|ports| - 1] == Forwarded(init, bind);
      assert forall i :: 0 <= i < |init| ==> init[i] == ports[i];
    }
  }

  lemma SshProbe(ports: seq<Port>, bind: string, sshPort: int, hostPort: int)
    ensures GuestPortOf(Forwards(ports, bind, sshPort), hostPort)
            == if sshPort > 0 && hostPort == sshPort then 22 else GuestPortOf(Forwarded(ports, bind), hostPort)
  {
    var fwds := Forwards(ports, bind, sshPort);
    if sshPort > 0 {
      assert fwds[..|fwds| - 1] == Forwarded(ports, bind);
    } else {
      assert fwds == Forwarded(ports, bind);
    }
  }

  datatype Problem = BadIPConfig | NoMemory | NoCPUs | BadBind | PublicBind | BadPort(index: nat)

  class Config {
    var ipConfig: string
    var memoryMB: int
    var cpus: int
    var bindAddress: string
    var allowPublicBind: bool
    var sshPort: int
    var ports: seq<Port>
    var tcpPorts: seq<int>

    constructor (ipConfig: string, memoryMB: int, cpus: int, bindAddress: string, allowPublicBind: bool, sshPort: int,
                 ports: seq<Port>, tcpPorts: seq<int>)
      ensures this.ipConfig == ipConfig && this.memoryMB == memoryMB && this.cpus == cpus
      ensures this.bindAddress == bindAddress && this.allowPublicBind == allowPublicBind && this.sshPort == sshPort
      ensures this.ports == ports && this.tcpPorts == tcpPorts
    {
      this.ipConfig, this.memoryMB, this.cpus := ipConfig, memoryMB, cpus;
      this.bindAddress, this.allowPublicBind, this.sshPort := bindAddress, allowPublicBind, sshPort;
      this.ports, this.tcpPorts := ports, tcpPorts;
    }

    /** The last loop of `mergeFlags`: specs that do not parse are dropped without a word. */
    method MergePorts(specs: seq<string>)
      modifies this`ports
      ensures ports == old(ports) + Accepted(specs)
    {
      ghost var parsed := Parsed(specs);
      var i := 0;
      while i < |specs|
        invariant 0 <= i <= |specs| && ports == old(ports) + Successes(parsed[..i])
      {
        SuccessesNext(parsed, i);
        var p := ParsePortSpec(specs[i]);
        if p.Ok? {
          ports := ports + [p.value];
        }
        i := i + 1;
      }
      assert parsed[..i] == parsed;
    }

    method Validate() returns (problem: Option<Problem>)
      ensures problem.None? <==>
                && (ipConfig == "cloud-init" || ipConfig == "kernel-dhcp" || ipConfig == "kernel-static" || ipConfig == "none")
                && memoryMB > 0 && cpus > 0
                && (bindAddress == "127.0.0.1" || bindAddress == "localhost" || bindAddress == "0.0.0.0")
                && (bindAddress == "0.0.0.0" ==> allowPublicBind) && AllInRange(ports)
      ensures problem.Some? && problem.value.BadPort? ==>
                && problem.value.index < |ports| && !InRange(ports[problem.value.index])
                && AllInRange(ports[..problem.value.index])
    {
      if ipConfig !in IP_CONFIGS {
        return Some(BadIPConfig);
      }
      if memoryMB <= 0 {
        return Some(NoMemory);
      }
      if cpus <= 0 {
        return Some(NoCPUs);
      }
      if bindAddress !in BIND_ADDRESSES {
        return Some(BadBind);
      }
      if bindAddress == "0.0.0.0" && !allowPublicBind {
        return Some(PublicBind);
      }
      var i := 0;
      while i < |ports|
        invariant 0 <= i <= |ports| && AllInRange(ports[..i])
      {
        var p := ports[i];
        if p.host <= 0 || p.host > 65535 || p.guest <= 0 || p.guest > 65535 {
          return Some(BadPort(i));
        }
        i := i + 1;
        assert ports[..i] == ports[..i - 1] + [p];
      }
      assert ports[..i] == ports;
      return None;
    }

    method PortForwards() returns (fwds: seq<PortForward>)
      ensures fwds == Forwards(ports, OrElse(bindAddress, "127.0.0.1"), sshPort)
      ensures AreForwards(fwds, ports, if bindAddress == "" then "127.0.0.1" else bindAddress, sshPort)
    {
      ForwardsAre(ports, OrElse(bindAddress, "127.0.0.1"), sshPort);
      var bind := bindAddress;
      if bind == "" {
        bind := "127.0.0.1";
      }
      fwds := [];
      var i := 0;
      while i < |ports|
        invariant 0 <= i <= |ports| && fwds == Forwarded(ports[..i], bind)
      {
        var proto := ports[i].protocol;
        if proto == "" {
          proto := "tcp";
        }
        fwds := fwds + [PortForward(proto, bind, ports[i].host, ports[i].guest)];
        i := i + 1;
        assert ports[..i][..i - 1] == ports[..i - 1];
      }
      assert ports[..i] == ports;
      if sshPort > 0 {
        fwds := fwds + [PortForward("tcp", bind, sshPort, 22)];
      }
    }

    /** The map from host to guest ports agrees with searching the forwards from the end. */
    method ReadinessGuestPorts() returns (out: seq<int>)
      ensures |out| == |tcpPorts|
      ensures forall k :: 0 <= k < |out| ==> out[k] == GuestPortOf(Forwards(ports, "", sshPort), tcpPorts[k])
    {
      if |tcpPorts| == 0 {
        return [];
      }
      var hostToGuest: map<int, int> := map[];
      var i := 0;
      while i < |ports|
        invariant 0 <= i <= |ports|
        invariant forall h :: GuestPortOf(Forwarded(ports[..i], ""), h) == if h in hostToGuest then hostToGuest[h] else h
      {
        hostToGuest := hostToGuest[ports[i].host := ports[i].guest];
        i := i + 1;
        assert ports[..i][..i - 1] == ports[..i - 1];
        assert Forwarded(ports[..i], "")[..i - 1] == Forwarded(ports[..i - 1], "");
      }
      assert ports[..i] == ports;
      ghost var fwds := Forwards(ports, "", sshPort);
      if sshPort > 0 {
        hostToGuest := hostToGuest[sshPort := 22];
        assert fwds[..|fwds| - 1] == Forwarded(ports, "");
      } else {
        assert fwds == Forwarded(ports, "");
      }
      assert forall h :: GuestPortOf(fwds, h) == if h in hostToGuest then hostToGuest[h] else h;
      out := [];
      i := 0;
      while i < |tcpPorts|
        invariant 0 <= i <= |tcpPorts| && |out| == i
        invariant forall k :: 0 <= k < i ==> out[k] == GuestPortOf(fwds, tcpPorts[k])
      {
        if tcpPorts[i] in hostToGuest {
          out := out + [hostToGuest[tcpPorts[i]]];
        } else {
          out := out + [tcpPorts[i]];
        }
        i := i + 1;
      }
    }
  }

  /** The translation of a probed port does not depend on the bind address. */
  lemma {:induction false} GuestPortAnyBind(ports: seq<Port>, bind: string, other: string, sshPort: int, hostPort: int)
    ensures GuestPortOf(Forwards(ports, bind, sshPort), hostPort) == GuestPortOf(Forwards(ports, other, sshPort), hostPort)
    decreases |ports|, sshPort > 0
  {
    var a, b := Forwards(ports, bind, sshPort), Forwards(ports, other, sshPort);
    if sshPort > 0 {
      assert a[..|a| - 1] == Forwards(ports, bind, 0) && b[..|b| - 1] == Forwards(ports, other, 0);
      GuestPortAnyBind(ports, bind, other, 0, hostPort);
    } else if ports != [] {
      var init := ports[..|ports| - 1];
      assert a[..|a| - 1] == Forwards(init, bind, sshPort) && b[..|b| - 1] == Forwards(init, other, sshPort);
      GuestPortAnyBind(init, bind, other, sshPort, hostPort);
    }
  }

  /* ---------- the -nic argument ---------- */

  /** `%d`. */
  function Decimal(n: int): string {
    if n < 0 then "-" + Itoa(-n) else Itoa(n)
  }

  lemma DecimalRoundTrip(n: int)
    ensures Atoi(Decimal(n)) == Some(n)
  {
    if n < 0 {
      NumberItoa(-n);
      assert Decimal(n)[1..] == Itoa(-n) && Decimal(n)[0] == '-';
    } else {
      AtoiItoa(n);
    }
  }

  function PortPair(f: PortForward): string {
    Decimal(f.hostPort) + ['-'] + ([':'] + Decimal(f.guestPort))
  }

  function Endpoints(f: PortForward): string {
    OrElse(f.proto, "tcp") + [':'] + (OrElse(f.hostIP, "127.0.0.1") + [':'] + PortPair(f))
  }

  function Hostfwd(f: PortForward): string {
    "hostfwd" + ['='] + Endpoints(f)
  }

  function Hostfwds(fwds: seq<PortForward>): (parts: seq<string>)
    ensures |parts| == |fwds| && forall i :: 0 <= i < |fwds| ==> parts[i] == Hostfwd(fwds[i])
  {
    seq(|fwds|, i requires 0 <= i < |fwds| => Hostfwd(fwds[i]))
  }

  function Nic(fwds: seq<PortForward>): string {
    Join(["user", "model=virtio-net-pci"] + Hostfwds(fwds), ',')
  }

  lemma Formatted(proto: string, hostIP: string, h: string, g: string)
    ensures "hostfwd=" + proto + ":" + hostIP + ":" + h + "-:" + g
            == "hostfwd" + ['='] + (proto + [':'] + (hostIP + [':'] + (h + ['-'] + ([':'] + g))))
  {
    assert "hostfwd=" == "hostfwd" + ['='] && "-:" == ['-'] + [':'];
  }

  method NicArgs(fwds: seq<PortForward>) returns (args: seq<string>)
    ensures args == ["-nic", Nic(fwds)]
  {
    var parts := ["user", "model=virtio-net-pci"];
    var i := 0;
    while i < |fwds|
      invariant 0 <= i <= |fwds| && parts == ["user", "model=virtio-net-pci"] + Hostfwds(fwds[..i])
    {
      var proto := fwds[i].proto;
      if proto == "" {
        proto := "tcp";
      }
      var hostIP := fwds[i].hostIP;
      if hostIP == "" {
        hostIP := "127.0.0.1";
      }
      var h, g := Decimal(fwds[i].hostPort), Decimal(fwds[i].guestPort);
      parts := parts + ["hostfwd=" + proto + ":" + hostIP + ":" + h + "-:" + g];
      Formatted(proto, hostIP, h, g);
      i := i + 1;
      assert Hostfwds(fwds[..i]) == Hostfwds(fwds[..i - 1]) + [Hostfwd(fwds[i - 1])];
    }
    assert fwds[..i] == fwds;
    return ["-nic", Join(parts, ',')];
  }

  /* How QEMU takes the argument apart: at commas, then
   * `hostfwd=PROTO:HOSTADDR:HOSTPORT-GUESTADDR:GUESTPORT`. */

  function ReadPortPair(text: string, proto: string, hostIP: string): Option<PortForward> {
    var hostPort := Cut(text, '-');
    var guestIP := Cut(hostPort.after, ':');
    var h, g := Number(hostPort.before), Number(guestIP.after);
    if guestIP.before != "" || !guestIP.found || h.None? || g.None? then None
    else Some(PortForward(proto, hostIP, h.value, g.value))
  }

  function ReadEndpoints(text: string): Option<PortForward> {
    var proto := Cut(text, ':');
    var hostIP := Cut(proto.after, ':');
    ReadPortPair(hostIP.after, proto.before, hostIP.before)
  }

  function ReadHostfwd(part: string): Option<PortForward> {
    var option := Cut(part, '=');
    if option.before != "hostfwd" then None else ReadEndpoints(option.after)
  }

  function ReadEach(parts: seq<string>): (fs: seq<Option<PortForward>>)
    ensures |fs| == |parts| && forall i :: 0 <= i < |parts| ==> fs[i] == ReadHostfwd(parts[i])
  {
    seq(|parts|, i requires 0 <= i < |parts| => ReadHostfwd(parts[i]))
  }

  /** All the values, or none at all when one is missing. */
  function AllOf<T>(xs: seq<Option<T>>): Option<seq<T>>
    decreases |xs|
  {
    if xs == [] then Some([])
    else
      var rest := AllOf(xs[1..]);
      if xs[0].None? || rest.None? then None else Some([xs[0].value] + rest.value)
  }

  lemma {:induction false} AllPresent<T>(xs: seq<Option<T>>, values: seq<T>)
    requires |xs| == |values| && forall i :: 0 <= i < |xs| ==> xs[i] == Some(values[i])
    ensures AllOf(xs) == Some(values)
  {
    if xs != [] {
      AllPresent(xs[1..], values[1..]);
      assert [values[0]] + values[1..] == values;
    }
  }

  function ReadHostfwds(parts: seq<string>): Option<seq<PortForward>> {
    AllOf(ReadEach(parts))
  }

  function ReadNic(arg: string): Option<seq<PortForward>> {
    var parts := Split(arg, ',');
    if |parts| < 2 || parts[0] != "user" || parts[1] != "model=virtio-net-pci" then None
    else ReadHostfwds(parts[2..])
  }

  /** A name that the argument's own punctuation cannot be mistaken for. */
  predicate Plain(text: string) {
    text != "" && ',' !in text && ':' !in text
  }

  predicate Readable(f: PortForward) {
    Plain(f.proto) && Plain(f.hostIP) && f.hostPort >= 0 && f.guestPort >= 0
  }

  lemma PortTextsRoundTrip(h: string, g: string, f: PortForward)
    requires forall i :: 0 <= i < |h| ==> IsDigit(h[i])
    requires forall i :: 0 <= i < |g| ==> IsDigit(g[i])
    requires Number(h) == Some(f.hostPort) && Number(g) == Some(f.guestPort)
    ensures ReadPortPair(h + ['-'] + ([':'] + g), f.proto, f.hostIP) == Some(f)
    ensures ',' !in h + ['-'] + ([':'] + g)
  {
    CutAt(h, [':'] + g, '-');
    CutAt("", g, ':');
    assert [] + [':'] + g == [':'] + g;
  }

  lemma PortPairRoundTrip(f: PortForward)
    requires Readable(f)
    ensures ReadPortPair(PortPair(f), f.proto, f.hostIP) == Some(f) && ',' !in PortPair(f)
  {
    NumberItoa(f.hostPort);
    NumberItoa(f.guestPort);
    PortTextsRoundTrip(Itoa(f.hostPort), Itoa(f.guestPort), f);
  }

  lemma EndpointsRoundTrip(f: PortForward)
    requires Readable(f)
    ensures ReadEndpoints(Endpoints(f)) == Some(f) && ',' !in Endpoints(f)
  {
    CutAt(f.proto, f.hostIP + [':'] + PortPair(f), ':');
    CutAt(f.hostIP, PortPair(f), ':');
    PortPairRoundTrip(f);
  }

  lemma OptionRoundTrip(name: string, value: string)
    requires '=' !in name && ',' !in name && ',' !in value
    ensures Cut(name + ['='] + value, '=') == Cutting(name, value, true) && ',' !in name + ['='] + value
  {
    CutAt(name, value, '=');
  }

  lemma HostfwdRoundTrip(f: PortForward)
    requires Readable(f)
    ensures ReadHostfwd(Hostfwd(f)) == Some(f) && ',' !in Hostfwd(f)
  {
    EndpointsRoundTrip(f);
    OptionRoundTrip("hostfwd", Endpoints(f));
  }

  lemma HostfwdsRoundTrip(fwds: seq<PortForward>)
    requires forall i :: 0 <= i < |fwds| ==> Readable(fwds[i])
    ensures ReadHostfwds(Hostfwds(fwds)) == Some(fwds)
    ensures forall i :: 0 <= i < |fwds| ==> ',' !in Hostfwds(fwds)[i]
  {
    forall i | 0 <= i < |fwds|
      ensures ReadHostfwd(Hostfwds(fwds)[i]) == Some(fwds[i]) && ',' !in Hostfwds(fwds)[i]
    {
      HostfwdRoundTrip(fwds[i]);
    }
    AllPresent(ReadEach(Hostfwds(fwds)), fwds);
  }

  lemma NicParts(header: seq<string>, fwds: seq<PortForward>)
    requires header != [] && forall i :: 0 <= i < |header| ==> ',' !in header[i]
    requires forall i :: 0 <= i < |fwds| ==> Readable(fwds[i])
    ensures Split(Join(header + Hostfwds(fwds), ','), ',') == header + Hostfwds(fwds)
    ensures ReadHostfwds((header + Hostfwds(fwds))[|header|..]) == Some(fwds)
  {
    var parts := header + Hostfwds(fwds);
    HostfwdsRoundTrip(fwds);
    SplitJoin(parts, ',');
    assert parts[|header|..] == Hostfwds(fwds);
  }

  /** The argument is taken apart into exactly the forwards it was made from. */
  lemma NicRoundTrip(fwds: seq<PortForward>)
    requires forall i :: 0 <= i < |fwds| ==> Readable(fwds[i])
    ensures ReadNic(Nic(fwds)) == Some(fwds)
  {
    NicParts(["user", "model=virtio-net-pci"], fwds);
  }

  predicate ForwardablePort(p: Port) {
    InRange(p) && (p.protocol == "" || IsProtocol(p.protocol))
  }

  /** A port list that the merge and the configuration file are meant to hold. */
  predicate Forwardable(ports: seq<Port>) {
    forall i :: 0 <= i < |ports| ==> ForwardablePort(ports[i])
  }

  lemma {:induction false} ForwardedAppend(a: seq<Port>, b: seq<Port>, bind: string)
    ensures Forwarded(a + b, bind) == Forwarded(a, bind) + Forwarded(b, bind)
  {
    if b == [] {
      assert a + b == a;
    } else {
      var last := |a + b| - 1;
      ForwardedAppend(a, b[..|b| - 1], bind);
      assert (a + b)[..last] == a + b[..|b| - 1] && (a + b)[last] == b[|b| - 1];
    }
  }

  lemma ForwardsAppend(a: seq<Port>, b: seq<Port>, bind: string, sshPort: int)
    ensures Forwards(a + b, bind, sshPort) == Forwarded(a, bind) + Forwards(b, bind, sshPort)
  {
    ForwardedAppend(a, b, bind);
  }

  /** The configured ports, then ssh, are what QEMU reads, whatever the permitted bind address. */
  lemma ForwardsReachQemu(ports: seq<Port>, bind: string, sshPort: int)
    requires bind in BIND_ADDRESSES && (sshPort > 0 ==> PortInRange(sshPort)) && Forwardable(ports)
    ensures ReadNic(Nic(Forwards(ports, bind, sshPort))) == Some(Forwards(ports, bind, sshPort))
    ensures AreForwards(Forwards(ports, bind, sshPort), ports, bind, sshPort)
  {
    assert Plain("127.0.0.1") && Plain("localhost") && Plain("0.0.0.0") && Plain("tcp") && Plain("udp");
    NicRoundTrip(Forwards(ports, bind, sshPort));
  }

  /** From the flags' texts to QEMU: the texts of any forwards, merged into any valid
    * configuration, reach QEMU behind the configured ports and before ssh, in order. */
  lemma FlagsReachQemu(configured: seq<Port>, flags: seq<Port>, bind: string, sshPort: int)
    requires bind in BIND_ADDRESSES && (sshPort > 0 ==> PortInRange(sshPort))
    requires Forwardable(configured) && AllInRange(flags)
    requires forall p :: p in flags ==> p.name == "" && IsProtocol(p.protocol)
    ensures var merged := configured + Accepted(RenderSpecs(flags));
            && Forwardable(merged)
            && ReadNic(Nic(Forwards(merged, bind, sshPort)))
               == Some(Forwarded(configured, bind) + Forwards(flags, bind, sshPort))
            && AreForwards(Forwarded(configured, bind) + Forwards(flags, bind, sshPort), configured + flags, bind, sshPort)
  {
    AcceptedRoundTrip(flags);
    assert forall i :: 0 <= i < |flags| ==> flags[i] in flags;
    ForwardsAppend(configured, flags, bind, sshPort);
    ForwardsReachQemu(configured + flags, bind, sshPort);
  }
}
