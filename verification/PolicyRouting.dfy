/** The policy-routing compiler of internal/services/routing.go: an ordered policy list
    becomes one nft chain. Rules are data; what an address, port, set or hour match means
    for a packet is left to the packet (`Packet.holds`). */
module PolicyRouting {
  import opened Text

  datatype Policy = Policy(
    name: string, enabled: bool, priority: int,
    srcMacs: seq<string>, srcIps: seq<string>, dstIps: seq<string>, dstPorts: seq<int>,
    domains: seq<string>, protocol: string, tunnel: string, killSwitch: bool, schedule: string)

  datatype Tunnel = Tunnel(name: string, table: int, fwmark: int)
  datatype TunnelRef = TunnelRef(table: int, fwmark: int)

  datatype Match =
    | HourFrom(start: string) | HourBefore(end: string)
    | SrcMac(mac: string) | SrcIp(src: string) | DstIp(dst: string)
    | DstPort(proto: string, port: int) | DstInSet(setName: string)
    | MarkIsNot(mark: int)

  datatype Statement = SetMark(mark: int) | Drop | SaveMark

  /** `add rule`, matches first; or `add set`, which no packet sees. */
  datatype Line = Rule(matches: seq<Match>, stmt: Statement) | DeclareSet(setName: string)

  /** Which static matches hold; MarkIsNot depends on the mark the packet carries by then. */
  datatype Packet = Packet(holds: Match -> bool)

  datatype Verdict = Dropped | Accepted(mark: int, ctMark: Option<int>)

  // ---------- Evaluation of a chain ----------

  predicate Holds(p: Packet, mark: int, m: Match) {
    if m.MarkIsNot? then mark != m.mark else p.holds(m)
  }

  predicate AllHold(p: Packet, mark: int, ms: seq<Match>) {
    forall i :: 0 <= i < |ms| ==> Holds(p, mark, ms[i])
  }

  function Eval(lines: seq<Line>, p: Packet, v: Verdict): Verdict {
    if lines == [] then v else Eval(lines[1..], p, EvalLine(lines[0], p, v))
  }

  function EvalLine(line: Line, p: Packet, v: Verdict): Verdict {
    if v.Dropped? || line.DeclareSet? || !AllHold(p, v.mark, line.matches) then v
    else match line.stmt
      case SetMark(m) => v.(mark := m)
      case Drop => Dropped
      case SaveMark => v.(ctMark := Some(v.mark))
  }

  // ---------- The compiler ----------

  /** buildScheduleMatch: "start-end"; anything else yields no match at all. */
  function ScheduleMatch(schedule: string): seq<Match> {
    var parts := Split(schedule, '-');
    if |parts| != 2 then [] else
      var start, end := TrimSpace(parts[0]), TrimSpace(parts[1]);
      if start == "" || end == "" then [] else [HourFrom(start), HourBefore(end)]
  }

  function Window(p: Policy): seq<Match> { if p.schedule != "" then ScheduleMatch(p.schedule) else [] }

  function FindIn(ts: seq<Tunnel>, name: string): Option<TunnelRef> {
    if ts == [] then None
    else if ts[0].name == name then Some(TunnelRef(ts[0].table, ts[0].fwmark))
    else FindIn(ts[1..], name)
  }

  /** findTunnel: WireGuard clients first, then OpenVPN clients. */
  function FindTunnel(wg: seq<Tunnel>, ovpn: seq<Tunnel>, name: string): Option<TunnelRef> {
    var t := FindIn(wg, name);
    if t.Some? then t else FindIn(ovpn, name)
  }

  function Sanitized(name: string): string {
    seq(|name|, i requires 0 <= i < |name| => if name[i] in " -." then '_' else name[i])
  }

  function SetName(p: Policy): string { "pbr_" + Sanitized(p.name) }

  function Protocol(p: Policy): string { if p.protocol == "" then "tcp" else p.protocol }

  // What selects a packet for a policy, one list per criterion.
  function MacSelectors(p: Policy): seq<Match> { seq(|p.srcMacs|, i requires 0 <= i < |p.srcMacs| => SrcMac(p.srcMacs[i])) }
  function SrcSelectors(p: Policy): seq<Match> { seq(|p.srcIps|, i requires 0 <= i < |p.srcIps| => SrcIp(p.srcIps[i])) }
  function DstSelectors(p: Policy): seq<Match> { seq(|p.dstIps|, i requires 0 <= i < |p.dstIps| => DstIp(p.dstIps[i])) }
  function PortSelectors(p: Policy): seq<Match> {
    seq(|p.dstPorts|, i requires 0 <= i < |p.dstPorts| => DstPort(Protocol(p), p.dstPorts[i]))
  }
  function SetSelectors(p: Policy): seq<Match> { if |p.domains| > 0 then [DstInSet(SetName(p))] else [] }

  function SourceSelectors(p: Policy): seq<Match> { MacSelectors(p) + SrcSelectors(p) }
  function Selectors(p: Policy): seq<Match> {
    SourceSelectors(p) + DstSelectors(p) + PortSelectors(p) + SetSelectors(p)
  }

  class RoutingService {
    var policies: seq<Policy>
    var wg: seq<Tunnel>
    var ovpn: seq<Tunnel>

    constructor (policies: seq<Policy>, wg: seq<Tunnel>, ovpn: seq<Tunnel>)
      ensures this.policies == policies && this.wg == wg && this.ovpn == ovpn
    {
      this.policies, this.wg, this.ovpn := policies, wg, ovpn;
    }

    /** sort.Slice promises an order by priority and nothing about equal priorities. */
    method GetPolicies() returns (out: seq<Policy>)
      ensures Sorted(out) && multiset(out) == multiset(policies)
    {
      out := [];
      for i := 0 to |policies|
        invariant Sorted(out) && multiset(out) == multiset(policies[..i])
      {
        var p, k := policies[i], |out|;
        while k > 0 && p.priority < out[k - 1].priority
          invariant 0 <= k <= |out| && forall j :: k <= j < |out| ==> p.priority < out[j].priority
        {
          k := k - 1;
        }
        InsertSorted(out, k, p);
        InsertCounts(out, k, p);
        assert policies[..i + 1] == policies[..i] + [p];
        out := out[..k] + [p] + out[k..];
      }
      assert policies[..|policies|] == policies;
    }

    /** Where each name occurs last. */
    method IndexByName() returns (byName: map<string, nat>)
      ensures forall k :: 0 <= k < |policies| ==> policies[k].name in byName
      ensures forall n :: n in byName ==> byName[n] < |policies| && policies[byName[n]].name == n
                                          && forall j :: byName[n] < j < |policies| ==> policies[j].name != n
    {
      byName := map[];
      for i := 0 to |policies|
        invariant forall k :: 0 <= k < i ==> policies[k].name in byName
        invariant forall n :: n in byName ==> byName[n] < i && policies[byName[n]].name == n
                                              && forall j :: byName[n] < j < i ==> policies[j].name != n
      {
        byName := byName[policies[i].name := i];
      }
    }

    /** Number the named policies 10, 20, ... in the given order. Of policies sharing a name the
        last one is renumbered; of a name given twice the last position counts. */
    method UpdatePriorities(ordered: seq<string>)
      modifies this`policies
      ensures policies == Renumbered(old(policies), ordered)
    {
      var byName := IndexByName();
      assert policies == Renumbered(policies, ordered[..0]);
      for i := 0 to |ordered|
        invariant policies == Renumbered(old(policies), ordered[..i])
      {
        assert ordered[..i + 1] == ordered[..i] + [ordered[i]];
        if ordered[i] in byName {
          var k := byName[ordered[i]];
          RenumberOne(old(policies), ordered[..i], ordered[i], k);
          policies := policies[k := policies[k].(priority := (i + 1) * 10)];
        } else {
          RenumberNone(old(policies), ordered[..i], ordered[i]);
        }
      }
      assert ordered[..|ordered|] == ordered;
    }

    /** Every packet is treated by the emitted chain as the policies say. */
    method GenerateFullNftChain(ps: seq<Policy>) returns (chain: seq<Line>)
      ensures Implements(chain, wg, ovpn, ps)
    {
      hide Emitted, Implements;
      chain := [];
      for i := 0 to |ps|
        invariant chain == Chain(wg, ovpn, ps[..i])
      {
        ChainSnoc(wg, ovpn, ps[..i], ps[i]);
        assert ps[..i + 1] == ps[..i] + [ps[i]];
        var lines := EmitPolicy(ps[i]);
        chain := chain + lines;
      }
      assert ps[..|ps|] == ps;
      chain := chain + [Rule([], SaveMark)];
      ChainImplements(wg, ovpn, ps);
    }

    /** One round of the loop. */
    method EmitPolicy(p: Policy) returns (lines: seq<Line>)
      ensures lines == Emitted(wg, ovpn, p)
    {
      hide PolicyMarks, KillLines, SourceSelectors, FindTunnel;
      if !p.enabled { return []; }
      var tunnel := FindTunnel(wg, ovpn, p.tunnel);
      if tunnel.None? { return []; }
      var prefix: seq<Match> := [];
      if p.schedule != "" {
        prefix := ScheduleMatch(p.schedule);
      }
      lines := EmitMarks(prefix, p, tunnel.value.fwmark);
      if p.killSwitch {
        lines := EmitKillSwitch(lines, p, tunnel.value.fwmark);
      }
    }

    /** One `meta mark set` line per selector of the policy. */
    method EmitMarks(prefix: seq<Match>, p: Policy, mark: int) returns (chain: seq<Line>)
      requires prefix == Window(p)
      ensures chain == PolicyMarks(p, mark)
    {
      chain := [];
      for k := 0 to |p.srcMacs|
        invariant chain == MarkLines(prefix, MacSelectors(p)[..k], mark)
      {
        chain := chain + [Rule(prefix + [SrcMac(p.srcMacs[k])], SetMark(mark))];
        MarkLinesSnoc(prefix, MacSelectors(p), k, mark);
      }
      assert MacSelectors(p)[..|p.srcMacs|] == MacSelectors(p);
      ghost var afterMacs := chain;
      for k := 0 to |p.srcIps|
        invariant chain == afterMacs + MarkLines(prefix, SrcSelectors(p)[..k], mark)
      {
        chain := chain + [Rule(prefix + [SrcIp(p.srcIps[k])], SetMark(mark))];
        MarkLinesSnoc(prefix, SrcSelectors(p), k, mark);
      }
      assert SrcSelectors(p)[..|p.srcIps|] == SrcSelectors(p);
      ghost var afterSrcs := chain;
      for k := 0 to |p.dstIps|
        invariant chain == afterSrcs + MarkLines(prefix, DstSelectors(p)[..k], mark)
      {
        chain := chain + [Rule(prefix + [DstIp(p.dstIps[k])], SetMark(mark))];
        MarkLinesSnoc(prefix, DstSelectors(p), k, mark);
      }
      assert DstSelectors(p)[..|p.dstIps|] == DstSelectors(p);
      var ports := EmitPorts(prefix, p, mark);
      chain := chain + ports;
      if |p.domains| > 0 {
        var setName := "pbr_" + Sanitized(p.name);
        chain := chain + [DeclareSet(setName)];
        chain := chain + [Rule(prefix + [DstInSet(setName)], SetMark(mark))];
      }
    }

    method EmitPorts(prefix: seq<Match>, p: Policy, mark: int) returns (chain: seq<Line>)
      ensures chain == MarkLines(prefix, PortSelectors(p), mark)
    {
      chain := [];
      for k := 0 to |p.dstPorts|
        invariant chain == MarkLines(prefix, PortSelectors(p)[..k], mark)
      {
        var proto := p.protocol;
        if proto == "" {
          proto := "tcp";
        }
        assert proto == Protocol(p);
        chain := chain + [Rule(prefix + [DstPort(proto, p.dstPorts[k])], SetMark(mark))];
        MarkLinesSnoc(prefix, PortSelectors(p), k, mark);
      }
      assert PortSelectors(p)[..|p.dstPorts|] == PortSelectors(p);
    }

    /** One `meta mark != ... drop` line per listed source. */
    method EmitKillSwitch(start: seq<Line>, p: Policy, mark: int) returns (chain: seq<Line>)
      ensures chain == start + KillLines(SourceSelectors(p), mark)
    {
      chain := start;
      for k := 0 to |p.srcMacs|
        invariant chain == start + KillLines(MacSelectors(p)[..k], mark)
      {
        chain := chain + [Rule([SrcMac(p.srcMacs[k]), MarkIsNot(mark)], Drop)];
      }
      ghost var afterMacs := chain;
      for k := 0 to |p.srcIps|
        invariant chain == afterMacs + KillLines(SrcSelectors(p)[..k], mark)
      {
        chain := chain + [Rule([SrcIp(p.srcIps[k]), MarkIsNot(mark)], Drop)];
      }
      assert MacSelectors(p)[..|p.srcMacs|] == MacSelectors(p) && SrcSelectors(p)[..|p.srcIps|] == SrcSelectors(p);
      assert KillLines(SourceSelectors(p), mark) == KillLines(MacSelectors(p), mark) + KillLines(SrcSelectors(p), mark);
    }
  }

  // ---------- The emitted lines as a function ----------

  function MarkLines(prefix: seq<Match>, sels: seq<Match>, mark: int): seq<Line> {
    seq(|sels|, i requires 0 <= i < |sels| => Rule(prefix + [sels[i]], SetMark(mark)))
  }

  lemma MarkLinesSnoc(prefix: seq<Match>, sels: seq<Match>, k: nat, mark: int)
    requires k < |sels|
    ensures MarkLines(prefix, sels[..k + 1], mark) == MarkLines(prefix, sels[..k], mark) + [Rule(prefix + [sels[k]], SetMark(mark))]
  {}

  lemma MarkLinesConcat(prefix: seq<Match>, a: seq<Match>, b: seq<Match>, mark: int)
    ensures MarkLines(prefix, a + b, mark) == MarkLines(prefix, a, mark) + MarkLines(prefix, b, mark)
  {}

  function KillLines(sels: seq<Match>, mark: int): seq<Line> {
    seq(|sels|, i requires 0 <= i < |sels| => Rule([sels[i], MarkIsNot(mark)], Drop))
  }

  function PolicyMarks(p: Policy, mark: int): seq<Line> {
    var w := Window(p);
    MarkLines(w, MacSelectors(p), mark) + MarkLines(w, SrcSelectors(p), mark)
    + MarkLines(w, DstSelectors(p), mark) + MarkLines(w, PortSelectors(p), mark)
    + (if |p.domains| > 0 then [DeclareSet(SetName(p))] else []) + MarkLines(w, SetSelectors(p), mark)
  }

  function PolicyLines(p: Policy, mark: int): seq<Line> {
    PolicyMarks(p, mark) + (if p.killSwitch then KillLines(SourceSelectors(p), mark) else [])
  }

  function MarkOf(wg: seq<Tunnel>, ovpn: seq<Tunnel>, p: Policy): Option<int> {
    if p.enabled && FindTunnel(wg, ovpn, p.tunnel).Some? then Some(FindTunnel(wg, ovpn, p.tunnel).value.fwmark) else None
  }

  /** What one policy contributes: nothing when it is disabled or its tunnel is unknown. */
  function Emitted(wg: seq<Tunnel>, ovpn: seq<Tunnel>, p: Policy): seq<Line> {
    var m := MarkOf(wg, ovpn, p);
    if m.Some? then PolicyLines(p, m.value) else []
  }

  function Chain(wg: seq<Tunnel>, ovpn: seq<Tunnel>, ps: seq<Policy>): seq<Line> {
    if ps == [] then [] else Emitted(wg, ovpn, ps[0]) + Chain(wg, ovpn, ps[1..])
  }

  lemma {:induction false} ChainSnoc(wg: seq<Tunnel>, ovpn: seq<Tunnel>, ps: seq<Policy>, p: Policy)
    ensures Chain(wg, ovpn, ps + [p]) == Chain(wg, ovpn, ps) + Emitted(wg, ovpn, p)
  {
    hide Emitted;
    if ps == [] {
      assert (ps + [p])[1..] == [];
    } else {
      assert (ps + [p])[1..] == ps[1..] + [p];
      ChainSnoc(wg, ovpn, ps[1..], p);
      Regroup(Emitted(wg, ovpn, ps[0]), Chain(wg, ovpn, ps[1..]), Emitted(wg, ovpn, p));
    }
  }

  // ---------- What the policies mean for a packet ----------

  predicate InWindow(pol: Policy, p: Packet) { forall i :: 0 <= i < |Window(pol)| ==> p.holds(Window(pol)[i]) }

  predicate Selected(sels: seq<Match>, p: Packet) { exists i :: 0 <= i < |sels| && p.holds(sels[i]) }

  predicate Applies(pol: Policy, p: Packet) { InWindow(pol, p) && Selected(Selectors(pol), p) }

  /** The fwmark of the last enabled, tunnel-resolved policy that applies, else the incoming mark. */
  function LastMark(wg: seq<Tunnel>, ovpn: seq<Tunnel>, ps: seq<Policy>, p: Packet, mark: int): int {
    if ps == [] then mark else
      var last := ps[|ps| - 1];
      if MarkOf(wg, ovpn, last).Some? && Applies(last, p) then MarkOf(wg, ovpn, last).value
      else LastMark(wg, ovpn, ps[..|ps| - 1], p, mark)
  }

  /** Policy `k` is a kill switch listing the packet's source, outside its own window, and the
      packet reaches it carrying another mark. */
  predicate Kills(wg: seq<Tunnel>, ovpn: seq<Tunnel>, ps: seq<Policy>, k: nat, p: Packet, mark: int)
    requires k < |ps|
  {
    && MarkOf(wg, ovpn, ps[k]).Some? && ps[k].killSwitch
    && Selected(SourceSelectors(ps[k]), p) && !InWindow(ps[k], p)
    && LastMark(wg, ovpn, ps[..k], p, mark) != MarkOf(wg, ovpn, ps[k]).value
  }

  function Meaning(wg: seq<Tunnel>, ovpn: seq<Tunnel>, ps: seq<Policy>, p: Packet, mark: int): Verdict {
    if KilledBy(wg, ovpn, ps, p, mark) then Dropped
    else var m := LastMark(wg, ovpn, ps, p, mark); Accepted(m, Some(m))
  }

  // ---------- The same, field by field ----------

  /** `t` is the first tunnel of that name in the list. */
  ghost predicate FirstNamed(ts: seq<Tunnel>, name: string, t: Tunnel) {
    exists i :: 0 <= i < |ts| && ts[i] == t && t.name == name && forall j :: 0 <= j < i ==> ts[j].name != name
  }

  ghost predicate NoneNamed(ts: seq<Tunnel>, name: string) { forall i :: 0 <= i < |ts| ==> ts[i].name != name }

  lemma {:induction false} FindInMeans(ts: seq<Tunnel>, name: string)
    ensures FindIn(ts, name).None? <==> NoneNamed(ts, name)
    ensures FindIn(ts, name).Some? ==> exists t :: FirstNamed(ts, name, t) && FindIn(ts, name).value == TunnelRef(t.table, t.fwmark)
  {
    if ts != [] {
      if ts[0].name == name {
        assert FirstNamed(ts, name, ts[0]);
      } else {
        var rest := ts[1..];
        FindInMeans(rest, name);
        assert forall i :: 0 < i < |ts| ==> ts[i] == rest[i - 1];
        if FindIn(rest, name).Some? {
          var t :| FirstNamed(rest, name, t) && FindIn(rest, name).value == TunnelRef(t.table, t.fwmark);
          var i :| 0 <= i < |rest| && rest[i] == t && t.name == name && forall j :: 0 <= j < i ==> rest[j].name != name;
          assert ts[i + 1] == t;
          assert FirstNamed(ts, name, t);
        } else {
          assert NoneNamed(ts, name);
        }
      }
    }
  }

  lemma FirstUnique(ts: seq<Tunnel>, name: string, t: Tunnel, u: Tunnel)
    requires FirstNamed(ts, name, t) && FirstNamed(ts, name, u)
    ensures t == u
  {
    var i :| 0 <= i < |ts| && ts[i] == t && t.name == name && forall j :: 0 <= j < i ==> ts[j].name != name;
    var k :| 0 <= k < |ts| && ts[k] == u && u.name == name && forall j :: 0 <= j < k ==> ts[j].name != name;
  }

  /** The tunnel a policy names: the first WireGuard client of that name, else the first OpenVPN client. */
  ghost predicate Resolves(wg: seq<Tunnel>, ovpn: seq<Tunnel>, name: string, t: Tunnel) {
    FirstNamed(wg, name, t) || (NoneNamed(wg, name) && FirstNamed(ovpn, name, t))
  }

  /** The lookup finds a tunnel exactly when one is named, and then its own table and fwmark. */
  lemma FindTunnelMeans(wg: seq<Tunnel>, ovpn: seq<Tunnel>, name: string)
    ensures FindTunnel(wg, ovpn, name).None? <==> NoneNamed(wg, name) && NoneNamed(ovpn, name)
    ensures forall t :: Resolves(wg, ovpn, name, t) ==> FindTunnel(wg, ovpn, name) == Some(TunnelRef(t.table, t.fwmark))
  {
    FindInMeans(wg, name);
    FindInMeans(ovpn, name);
    forall t | Resolves(wg, ovpn, name, t) ensures FindTunnel(wg, ovpn, name) == Some(TunnelRef(t.table, t.fwmark)) {
      var list := if FirstNamed(wg, name, t) then wg else ovpn;
      assert !NoneNamed(list, name);
      var u :| FirstNamed(list, name, u) && FindIn(list, name).value == TunnelRef(u.table, u.fwmark);
      FirstUnique(list, name, t, u);
    }
  }

  /** The mark of a policy: the fwmark of the tunnel it names, if it is enabled and names one. */
  lemma MarkOfMeans(wg: seq<Tunnel>, ovpn: seq<Tunnel>, pol: Policy)
    ensures forall t :: Resolves(wg, ovpn, pol.tunnel, t) ==> MarkOf(wg, ovpn, pol) == if pol.enabled then Some(t.fwmark) else None
    ensures NoneNamed(wg, pol.tunnel) && NoneNamed(ovpn, pol.tunnel) ==> MarkOf(wg, ovpn, pol) == None
  {
    FindTunnelMeans(wg, ovpn, pol.tunnel);
  }

  /** "start-end" with both ends given: the packet's hour is from start on and before end. A schedule of any
      other form restricts nothing. */
  ghost predicate InHours(schedule: string, p: Packet) {
    forall a, b :: IsRange(schedule, a, b) ==> p.holds(HourFrom(TrimSpace(a))) && p.holds(HourBefore(TrimSpace(b)))
  }

  ghost predicate IsRange(schedule: string, a: string, b: string) {
    schedule == a + ['-'] + b && '-' !in a && '-' !in b && TrimSpace(a) != "" && TrimSpace(b) != ""
  }

  lemma RangeMatch(schedule: string, a: string, b: string)
    requires IsRange(schedule, a, b)
    ensures ScheduleMatch(schedule) == [HourFrom(TrimSpace(a)), HourBefore(TrimSpace(b))]
  {
    hide TrimSpace, Split;
    SplitAt(a, '-', b);
    SplitWhole(b, '-');
    assert [a] + [b] == [a, b];
  }

  lemma NoRangeNoMatch(schedule: string)
    requires forall a, b :: !IsRange(schedule, a, b)
    ensures ScheduleMatch(schedule) == []
  {
    hide TrimSpace, Split;
    var parts := Split(schedule, '-');
    TwoParts(schedule, '-');
    if |parts| == 2 {
      assert parts[0] in parts && parts[1] in parts;
      assert !IsRange(schedule, parts[0], parts[1]);
    }
  }

  lemma WindowMeans(pol: Policy, p: Packet)
    ensures InWindow(pol, p) <==> InHours(pol.schedule, p)
  {
    hide ScheduleMatch, IsRange;
    if a, b :| IsRange(pol.schedule, a, b) {
      RangeMatch(pol.schedule, a, b);
      var w := Window(pol);
      assert pol.schedule != "" by { NotEmpty(pol.schedule, a, b); }
      assert w == [HourFrom(TrimSpace(a)), HourBefore(TrimSpace(b))] && w[0] == HourFrom(TrimSpace(a)) && w[1] == HourBefore(TrimSpace(b));
      forall x, y | IsRange(pol.schedule, x, y) ensures HourFrom(TrimSpace(x)) == w[0] && HourBefore(TrimSpace(y)) == w[1] {
        RangeMatch(pol.schedule, x, y);
      }
    } else {
      NoRangeNoMatch(pol.schedule);
    }
  }

  lemma NotEmpty(schedule: string, a: string, b: string)
    requires IsRange(schedule, a, b)
    ensures schedule != ""
  {
    assert schedule[|a|] == '-';
  }

  /** The packet comes from a listed MAC or address. */
  ghost predicate FromListed(pol: Policy, p: Packet) {
    || (exists i :: 0 <= i < |pol.srcMacs| && p.holds(SrcMac(pol.srcMacs[i])))
    || (exists i :: 0 <= i < |pol.srcIps| && p.holds(SrcIp(pol.srcIps[i])))
  }

  /** The packet goes to a listed address, port (of TCP unless the policy says otherwise) or domain. */
  ghost predicate ToListed(pol: Policy, p: Packet) {
    || (exists i :: 0 <= i < |pol.dstIps| && p.holds(DstIp(pol.dstIps[i])))
    || (exists i :: 0 <= i < |pol.dstPorts| && p.holds(DstPort(if pol.protocol == "" then "tcp" else pol.protocol, pol.dstPorts[i])))
    || (pol.domains != [] && p.holds(DstInSet(SetName(pol))))
  }

  lemma SourceMeans(pol: Policy, p: Packet)
    ensures Selected(SourceSelectors(pol), p) <==> FromListed(pol, p)
  {
    var macs, ips := MacSelectors(pol), SrcSelectors(pol);
    SelectedSplit(macs, ips, p);
    assert forall i :: 0 <= i < |macs| ==> macs[i] == SrcMac(pol.srcMacs[i]);
    assert forall i :: 0 <= i < |ips| ==> ips[i] == SrcIp(pol.srcIps[i]);
  }

  lemma TargetMeans(pol: Policy, p: Packet)
    ensures Selected(DstSelectors(pol) + PortSelectors(pol) + SetSelectors(pol), p) <==> ToListed(pol, p)
  {
    var ips, ports, sets := DstSelectors(pol), PortSelectors(pol), SetSelectors(pol);
    SelectedSplit(ips + ports, sets, p);
    SelectedSplit(ips, ports, p);
    assert forall i :: 0 <= i < |ips| ==> ips[i] == DstIp(pol.dstIps[i]);
    var proto := if pol.protocol == "" then "tcp" else pol.protocol;
    assert proto == Protocol(pol);
    assert forall i :: 0 <= i < |ports| ==> ports[i] == DstPort(proto, pol.dstPorts[i]);
    assert sets != [] ==> sets[0] == DstInSet(SetName(pol));
  }

  /** When a policy applies to a packet, and when its kill switch is concerned, in the policy's own fields. */
  lemma AppliesMeans(pol: Policy, p: Packet)
    ensures Applies(pol, p) <==> InHours(pol.schedule, p) && (FromListed(pol, p) || ToListed(pol, p))
    ensures Selected(SourceSelectors(pol), p) && !InWindow(pol, p) <==> FromListed(pol, p) && !InHours(pol.schedule, p)
  {
    hide Selected, InWindow, InHours, FromListed, ToListed, SourceSelectors, DstSelectors, PortSelectors, SetSelectors;
    WindowMeans(pol, p);
    SourceMeans(pol, p);
    TargetMeans(pol, p);
    var others := DstSelectors(pol) + PortSelectors(pol) + SetSelectors(pol);
    SelectedSplit(SourceSelectors(pol), others, p);
    assert Selectors(pol) == SourceSelectors(pol) + others;
  }

  /** Set names keep the policy's name but for blanks, dashes and dots, which nft does not take. */
  lemma SetNameMeans(pol: Policy, i: nat)
    requires i < |pol.name|
    ensures |SetName(pol)| == |pol.name| + 4 && SetName(pol)[..4] == "pbr_"
    ensures SetName(pol)[i + 4] == if pol.name[i] in {' ', '-', '.'} then '_' else pol.name[i]
  {}

  // ---------- Proof ----------

  lemma {:induction false} EvalConcat(a: seq<Line>, b: seq<Line>, p: Packet, v: Verdict)
    ensures Eval(a + b, p, v) == Eval(b, p, Eval(a, p, v))
  {
    if a == [] {
      assert a + b == b;
    } else {
      assert (a + b)[1..] == a[1..] + b;
      EvalConcat(a[1..], b, p, EvalLine(a[0], p, v));
    }
  }

  predicate Static(ms: seq<Match>) { forall i :: 0 <= i < |ms| ==> !ms[i].MarkIsNot? }

  lemma {:induction false} MarkLinesMeaning(prefix: seq<Match>, sels: seq<Match>, m: int, p: Packet, v: Verdict)
    requires Static(prefix) && Static(sels)
    ensures Eval(MarkLines(prefix, sels, m), p, v) ==
            if v.Accepted? && (forall i :: 0 <= i < |prefix| ==> p.holds(prefix[i])) && Selected(sels, p) then v.(mark := m) else v
    decreases |sels|
  {
    if sels != [] {
      var line := MarkLines(prefix, sels, m)[0];
      assert MarkLines(prefix, sels, m)[1..] == MarkLines(prefix, sels[1..], m);
      assert line.matches == prefix + [sels[0]];
      if v.Accepted? {
        assert AllHold(p, v.mark, line.matches) <==> (forall i :: 0 <= i < |prefix| ==> p.holds(prefix[i])) && p.holds(sels[0]) by {
          if AllHold(p, v.mark, line.matches) {
            assert Holds(p, v.mark, line.matches[|prefix|]);
            forall i | 0 <= i < |prefix| ensures p.holds(prefix[i]) { assert Holds(p, v.mark, line.matches[i]); }
          }
        }
      }
      SelectedSplit(sels[..1], sels[1..], p);
      assert sels[..1] + sels[1..] == sels && sels[..1][0] == sels[0];
      MarkLinesMeaning(prefix, sels[1..], m, p, EvalLine(line, p, v));
    }
  }

  lemma SelectedSplit(a: seq<Match>, b: seq<Match>, p: Packet)
    ensures Selected(a + b, p) <==> Selected(a, p) || Selected(b, p)
  {
    var c := a + b;
    if i :| 0 <= i < |a| && p.holds(a[i]) { assert c[i] == a[i]; }
    if i :| 0 <= i < |b| && p.holds(b[i]) { assert c[|a| + i] == b[i]; }
    if i :| 0 <= i < |c| && p.holds(c[i]) { assert c[i] == if i < |a| then a[i] else b[i - |a|]; }
  }

  lemma {:induction false} KillLinesMeaning(sels: seq<Match>, m: int, p: Packet, v: Verdict)
    requires Static(sels)
    ensures Eval(KillLines(sels, m), p, v) == if v.Accepted? && v.mark != m && Selected(sels, p) then Dropped else v
    decreases |sels|
  {
    if sels != [] {
      var line := KillLines(sels, m)[0];
      assert KillLines(sels, m)[1..] == KillLines(sels[1..], m);
      assert line.matches[0] == sels[0] && line.matches[1] == MarkIsNot(m);
      SelectedSplit(sels[..1], sels[1..], p);
      assert sels[..1] + sels[1..] == sels && sels[..1][0] == sels[0];
      KillLinesMeaning(sels[1..], m, p, EvalLine(line, p, v));
    }
  }

  lemma PolicyMarksMeaning(pol: Policy, m: int, p: Packet, v: Verdict)
    ensures Eval(PolicyMarks(pol, m), p, v) == if v.Accepted? && Applies(pol, p) then v.(mark := m) else v
  {
    var w, most, sets := Window(pol), SourceSelectors(pol) + DstSelectors(pol) + PortSelectors(pol), SetSelectors(pol);
    var decl: seq<Line> := if |pol.domains| > 0 then [DeclareSet(SetName(pol))] else [];
    MarkLinesConcat(w, MacSelectors(pol), SrcSelectors(pol), m);
    MarkLinesConcat(w, SourceSelectors(pol), DstSelectors(pol), m);
    MarkLinesConcat(w, SourceSelectors(pol) + DstSelectors(pol), PortSelectors(pol), m);
    assert PolicyMarks(pol, m) == MarkLines(w, most, m) + decl + MarkLines(w, sets, m);
    MarksThenSets(w, most, decl, sets, m, p, v);
  }

  lemma MarksThenSets(w: seq<Match>, most: seq<Match>, decl: seq<Line>, sets: seq<Match>, m: int, p: Packet, v: Verdict)
    requires Static(w) && Static(most) && Static(sets) && |decl| <= 1 && forall d :: d in decl ==> d.DeclareSet?
    ensures Eval(MarkLines(w, most, m) + decl + MarkLines(w, sets, m), p, v) ==
            if v.Accepted? && (forall i :: 0 <= i < |w| ==> p.holds(w[i])) && Selected(most + sets, p) then v.(mark := m) else v
  {
    EvalConcat(MarkLines(w, most, m) + decl, MarkLines(w, sets, m), p, v);
    EvalConcat(MarkLines(w, most, m), decl, p, v);
    MarkLinesMeaning(w, most, m, p, v);
    var v' := Eval(MarkLines(w, most, m), p, v);
    assert decl != [] ==> decl[1..] == [] && Eval(decl, p, v') == EvalLine(decl[0], p, v') == v';
    MarkLinesMeaning(w, sets, m, p, v');
    SelectedSplit(most, sets, p);
  }

  lemma SourceSelects(pol: Policy, p: Packet)
    ensures Static(SourceSelectors(pol)) && (Selected(SourceSelectors(pol), p) ==> Selected(Selectors(pol), p))
  {
    var others := DstSelectors(pol) + PortSelectors(pol) + SetSelectors(pol);
    SelectedSplit(SourceSelectors(pol), others, p);
    assert Selectors(pol) == SourceSelectors(pol) + others;
  }

  /** Inside its window a kill switch never fires: the same sources were just marked. */
  lemma PolicyMeaning(pol: Policy, m: int, p: Packet, v: Verdict)
    ensures Eval(PolicyLines(pol, m), p, v) ==
            if v.Dropped? then v
            else if pol.killSwitch && Selected(SourceSelectors(pol), p) && !InWindow(pol, p) && v.mark != m then Dropped
            else if Applies(pol, p) then v.(mark := m) else v
  {
    hide Selected, SourceSelectors, Selectors, InWindow, PolicyMarks, KillLines, Static;
    PolicyMarksMeaning(pol, m, p, v);
    SourceSelects(pol, p);
    var kills := if pol.killSwitch then KillLines(SourceSelectors(pol), m) else [];
    EvalConcat(PolicyMarks(pol, m), kills, p, v);
    if pol.killSwitch { KillLinesMeaning(SourceSelectors(pol), m, p, Eval(PolicyMarks(pol, m), p, v)); }
  }

  predicate KilledBy(wg: seq<Tunnel>, ovpn: seq<Tunnel>, ps: seq<Policy>, p: Packet, mark: int) {
    exists k :: 0 <= k < |ps| && Kills(wg, ovpn, ps, k, p, mark)
  }

  lemma KilledSnoc(wg: seq<Tunnel>, ovpn: seq<Tunnel>, init: seq<Policy>, last: Policy, p: Packet, mark: int)
    ensures var ps := init + [last];
            KilledBy(wg, ovpn, ps, p, mark) <==> KilledBy(wg, ovpn, init, p, mark) || Kills(wg, ovpn, ps, |init|, p, mark)
  {
    var ps := init + [last];
    forall k | 0 <= k < |init|
      ensures Kills(wg, ovpn, ps, k, p, mark) <==> Kills(wg, ovpn, init, k, p, mark)
    {
      assert ps[..k] == init[..k];
    }
  }

  /** The chain without its last line, on every prefix of the policy list. */
  lemma {:induction false} PrefixMeaning(wg: seq<Tunnel>, ovpn: seq<Tunnel>, ps: seq<Policy>, p: Packet, mark: int)
    ensures Eval(Chain(wg, ovpn, ps), p, Accepted(mark, None)) ==
            if KilledBy(wg, ovpn, ps, p, mark) then Dropped
            else Accepted(LastMark(wg, ovpn, ps, p, mark), None)
    decreases |ps|
  {
    hide PolicyLines, MarkOf, Selected, InWindow, SourceSelectors, Selectors;
    if ps != [] {
      var init, last := ps[..|ps| - 1], ps[|ps| - 1];
      assert ps == init + [last];
      ChainSnoc(wg, ovpn, init, last);
      PrefixMeaning(wg, ovpn, init, p, mark);
      KilledSnoc(wg, ovpn, init, last, p, mark);
      var m, v := MarkOf(wg, ovpn, last), Eval(Chain(wg, ovpn, init), p, Accepted(mark, None));
      EvalConcat(Chain(wg, ovpn, init), Emitted(wg, ovpn, last), p, Accepted(mark, None));
      if m.Some? { PolicyMeaning(last, m.value, p, v); }
    }
  }

  /** The chain treats every packet, with whatever mark it arrives, as the policies mean. */
  ghost predicate Implements(chain: seq<Line>, wg: seq<Tunnel>, ovpn: seq<Tunnel>, ps: seq<Policy>) {
    forall p: Packet, mark :: Eval(chain, p, Accepted(mark, None)) == Meaning(wg, ovpn, ps, p, mark)
  }

  lemma ChainImplements(wg: seq<Tunnel>, ovpn: seq<Tunnel>, ps: seq<Policy>)
    ensures Implements(Chain(wg, ovpn, ps) + [Rule([], SaveMark)], wg, ovpn, ps)
  {
    forall p: Packet, mark
      ensures Eval(Chain(wg, ovpn, ps) + [Rule([], SaveMark)], p, Accepted(mark, None)) == Meaning(wg, ovpn, ps, p, mark)
    {
      ChainMeaning(wg, ovpn, ps, p, mark);
    }
  }

  lemma ChainMeaning(wg: seq<Tunnel>, ovpn: seq<Tunnel>, ps: seq<Policy>, p: Packet, mark: int)
    ensures Eval(Chain(wg, ovpn, ps) + [Rule([], SaveMark)], p, Accepted(mark, None)) == Meaning(wg, ovpn, ps, p, mark)
  {
    var save := [Rule([], SaveMark)];
    EvalConcat(Chain(wg, ovpn, ps), save, p, Accepted(mark, None));
    PrefixMeaning(wg, ovpn, ps, p, mark);
    assert save[1..] == [];
  }

  // ---------- Priorities ----------

  predicate Sorted(ps: seq<Policy>) { forall i, j :: 0 <= i < j < |ps| ==> ps[i].priority <= ps[j].priority }

  lemma InsertSorted(out: seq<Policy>, k: nat, p: Policy)
    requires Sorted(out) && k <= |out| && (k > 0 ==> out[k - 1].priority <= p.priority)
    requires forall j :: k <= j < |out| ==> p.priority < out[j].priority
    ensures Sorted(out[..k] + [p] + out[k..])
  {
    var r := out[..k] + [p] + out[k..];
    assert forall i :: 0 <= i < k ==> r[i] == out[i] && out[i].priority <= p.priority;
    assert forall j :: k < j < |r| ==> r[j] == out[j - 1];
    assert r[k] == p;
  }

  lemma InsertCounts(out: seq<Policy>, k: nat, p: Policy)
    requires k <= |out|
    ensures multiset(out[..k] + [p] + out[k..]) == multiset(out) + multiset{p}
  {
    assert out == out[..k] + out[k..];
  }

  /** The last position of a name, -1 if absent. */
  function LastIndex(names: seq<string>, name: string): (k: int)
    ensures -1 <= k < |names|
    ensures k >= 0 ==> names[k] == name
    ensures forall j :: k < j < |names| ==> names[j] != name
  {
    if names == [] then -1
    else if names[|names| - 1] == name then |names| - 1
    else LastIndex(names[..|names| - 1], name)
  }

  lemma LastIndexSnoc(names: seq<string>, last: string)
    ensures forall n :: LastIndex(names + [last], n) == if n == last then |names| else LastIndex(names, n)
  {
    assert (names + [last])[..|names|] == names;
  }

  function RenumberedAt(ps: seq<Policy>, ordered: seq<string>, k: nat): Policy
    requires k < |ps|
  {
    var at := LastIndex(ordered, ps[k].name);
    if at >= 0 && forall j :: k < j < |ps| ==> ps[j].name != ps[k].name then ps[k].(priority := (at + 1) * 10) else ps[k]
  }

  function Renumbered(ps: seq<Policy>, ordered: seq<string>): seq<Policy> {
    seq(|ps|, k requires 0 <= k < |ps| => RenumberedAt(ps, ordered, k))
  }

  lemma RenumberOne(ps: seq<Policy>, ordered: seq<string>, name: string, k: nat)
    requires k < |ps| && ps[k].name == name && forall j :: k < j < |ps| ==> ps[j].name != name
    ensures var r := Renumbered(ps, ordered);
            Renumbered(ps, ordered + [name]) == r[k := r[k].(priority := (|ordered| + 1) * 10)]
  {
    hide LastIndex;
    LastIndexSnoc(ordered, name);
  }

  lemma RenumberNone(ps: seq<Policy>, ordered: seq<string>, name: string)
    requires forall j :: 0 <= j < |ps| ==> ps[j].name != name
    ensures Renumbered(ps, ordered + [name]) == Renumbered(ps, ordered)
  {
    hide LastIndex;
    LastIndexSnoc(ordered, name);
  }

  function PolicyNames(ps: seq<Policy>): seq<string> { seq(|ps|, k requires 0 <= k < |ps| => ps[k].name) }

  ghost predicate NoDup<T(!new)>(s: seq<T>) { forall i, j :: 0 <= i < j < |s| ==> s[i] != s[j] }

  lemma {:induction false} NoDupCounts<T(!new)>(s: seq<T>, x: T)
    requires NoDup(s)
    ensures multiset(s)[x] <= 1
  {
    if s != [] {
      var n := |s| - 1;
      assert s == s[..n] + [s[n]];
      NoDupCounts(s[..n], x);
      assert s[n] !in s[..n];
      assert multiset(s) == multiset(s[..n]) + multiset{s[n]};
    }
  }

  lemma PermutationNoDup<T(!new)>(a: seq<T>, b: seq<T>)
    requires NoDup(a) && multiset(a) == multiset(b)
    ensures NoDup(b) && |a| == |b|
  {
    assert |multiset(a)| == |a| && |multiset(b)| == |b|;
    forall i, j | 0 <= i < j < |b| ensures b[i] != b[j] {
      NoDupCounts(a, b[j]);
      assert b == b[..j] + [b[j]] + b[j + 1..];
      assert multiset(b) == multiset(b[..j]) + multiset{b[j]} + multiset(b[j + 1..]);
      assert b[i] in b[..j];
    }
  }

  /** n increasing numbers below n are 0, 1, ..., n - 1. */
  lemma {:induction false} IncreasingBelow(r: seq<int>, n: int, k: nat)
    requires |r| == n && k < n
    requires forall i :: 0 <= i < n ==> 0 <= r[i] < n
    requires forall i, j :: 0 <= i < j < n ==> r[i] < r[j]
    ensures r[k] == k
  {
    for i := 0 to k
      invariant r[i] >= i
    {}
    for d := 0 to n - 1 - k
      invariant r[n - 1 - d] <= n - 1 - d
    {}
  }

  lemma NamedPolicyRenumbered(ps: seq<Policy>, ordered: seq<string>, k: nat)
    requires NoDup(PolicyNames(ps)) && multiset(ordered) == multiset(PolicyNames(ps)) && k < |ps|
    ensures LastIndex(ordered, ps[k].name) >= 0
    ensures Renumbered(ps, ordered)[k] == ps[k].(priority := (LastIndex(ordered, ps[k].name) + 1) * 10)
  {
    assert PolicyNames(ps)[k] in multiset(ordered);
    forall j | k < j < |ps| ensures ps[j].name != ps[k].name { assert PolicyNames(ps)[k] != PolicyNames(ps)[j]; }
  }

  lemma RenumberedMember(ps: seq<Policy>, ordered: seq<string>, p: Policy) returns (k: nat)
    requires NoDup(PolicyNames(ps)) && multiset(ordered) == multiset(PolicyNames(ps)) && p in multiset(Renumbered(ps, ordered))
    ensures k < |ps| && p == Renumbered(ps, ordered)[k] && p.name == PolicyNames(ps)[k]
    ensures LastIndex(ordered, p.name) >= 0 && p.priority == (LastIndex(ordered, p.name) + 1) * 10
  {
    var rs := Renumbered(ps, ordered);
    assert p in rs;
    k :| 0 <= k < |rs| && p == rs[k];
    NamedPolicyRenumbered(ps, ordered, k);
  }

  lemma DistinctPositions(ps: seq<Policy>, ordered: seq<string>, out: seq<Policy>, i: nat, j: nat)
    requires NoDup(PolicyNames(ps)) && multiset(ordered) == multiset(PolicyNames(ps))
    requires Sorted(out) && multiset(out) == multiset(Renumbered(ps, ordered)) && NoDup(out) && i < j < |out|
    ensures 0 <= LastIndex(ordered, out[i].name) < LastIndex(ordered, out[j].name)
  {
    assert out[i] in multiset(out) && out[j] in multiset(out);
    var a := RenumberedMember(ps, ordered, out[i]);
    var b := RenumberedMember(ps, ordered, out[j]);
    assert out[i].priority <= out[j].priority && out[i] != out[j];
  }

  /** After a reorder naming every policy once, the policies come back in exactly that order,
      whatever the sort does with equal priorities. */
  lemma ReorderTakesEffect(ps: seq<Policy>, ordered: seq<string>, out: seq<Policy>)
    requires NoDup(PolicyNames(ps)) && multiset(ordered) == multiset(PolicyNames(ps))
    requires Sorted(out) && multiset(out) == multiset(Renumbered(ps, ordered))
    ensures PolicyNames(out) == ordered
  {
    var n, rs := |ps|, Renumbered(ps, ordered);
    PermutationNoDup(PolicyNames(ps), ordered);
    assert NoDup(rs) by {
      assert forall i :: 0 <= i < n ==> rs[i].name == PolicyNames(ps)[i];
    }
    PermutationNoDup(rs, out);
    var r := seq(n, i requires 0 <= i < n => LastIndex(ordered, out[i].name));
    forall i | 0 <= i < n ensures r[i] >= 0 {
      assert out[i] in multiset(out);
      var _ := RenumberedMember(ps, ordered, out[i]);
    }
    forall i, j | 0 <= i < j < n ensures r[i] < r[j] {
      DistinctPositions(ps, ordered, out, i, j);
    }
    forall k | 0 <= k < n ensures out[k].name == ordered[k] {
      IncreasingBelow(r, n, k);
    }
  }

  predicate LastOf(names: seq<string>, i: nat)
    requires i < |names|
  {
    forall j :: i < j < |names| ==> names[j] != names[i]
  }

  /** The last policy of its name gets priority 10 * (i + 1) from the last position i at which the order has the
      name, and nothing else changes. */
  lemma RenumberedMeans(ps: seq<Policy>, ordered: seq<string>, k: nat)
    requires k < |ps|
    ensures var p := Renumbered(ps, ordered)[k];
            && p == ps[k].(priority := p.priority)
            && (forall i :: 0 <= i < |ordered| && ordered[i] == ps[k].name && LastOf(ordered, i) && LastOf(PolicyNames(ps), k) ==> p.priority == 10 * (i + 1))
            && (ps[k].name !in ordered || !LastOf(PolicyNames(ps), k) ==> p == ps[k])
  {
    var at, names := LastIndex(ordered, ps[k].name), PolicyNames(ps);
    assert forall j :: 0 <= j < |ps| ==> names[j] == ps[j].name;
  }
}
