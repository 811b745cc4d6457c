/** Announcing sub-prefixes of a delegated IPv6 prefix: the SLA-ID map of internal/services/ipv6.go and
    the reorder handler of internal/web/handlers/ipv6.go. */
module PrefixDelegation {
  import opened Text
  import opened Arith

  datatype Iface = Iface(id: string, device: string)
  datatype Vlan = Vlan(id: string, parent: string, vid: int)
  datatype Announcement = Announcement(name: string, device: string, sla: int)

  type SubnetMap = map<string, int>

  const LAN := "lan"

  // ---------- Building the list ----------

  function ParentDevice(ifaces: seq<Iface>, parent: string): string {
    if ifaces == [] then "" else if ifaces[0].id == parent then ifaces[0].device else ParentDevice(ifaces[1..], parent)
  }

  predicate Usable(ifaces: seq<Iface>, v: Vlan) { v.id != "" && ParentDevice(ifaces, v.parent) != "" && v.vid != 0 }

  function UsableOf(ifaces: seq<Iface>, vs: seq<Vlan>): seq<Vlan> {
    if vs == [] then [] else if Usable(ifaces, vs[0]) then [vs[0]] + UsableOf(ifaces, vs[1..]) else UsableOf(ifaces, vs[1..])
  }

  function Pick(m: SubnetMap, key: string, dflt: int): int { if key in m then m[key] else dflt }

  function Device(ifaces: seq<Iface>, v: Vlan): string {
    ParentDevice(ifaces, v.parent) + "." + (if v.vid < 0 then "-" + Dec(-v.vid) else Dec(v.vid))
  }

  /** The VLAN entries, numbered from `auto` where the map says nothing. */
  function Entries(ifaces: seq<Iface>, vs: seq<Vlan>, m: SubnetMap, maxSla: int, auto: int): seq<Announcement> {
    if vs == [] then [] else
      var sla := Pick(m, vs[0].id, auto);
      if sla > maxSla then Entries(ifaces, vs[1..], m, maxSla, auto)
      else [Announcement(vs[0].id, Device(ifaces, vs[0]), sla)] + Entries(ifaces, vs[1..], m, maxSla, auto + 1)
  }

  function Announced(lanDev: string, ifaces: seq<Iface>, vlans: seq<Vlan>, m: SubnetMap, slaLen: nat): seq<Announcement> {
    [Announcement(LAN, lanDev, Pick(m, LAN, 0))]
    + if slaLen == 0 then [] else Entries(ifaces, UsableOf(ifaces, vlans), m, Pow2(slaLen) - 1, 1)
  }

  class IPv6Service {
    const ifaces: seq<Iface>
    const vlans: seq<Vlan>
    var subnetMap: SubnetMap

    constructor (ifaces: seq<Iface>, vlans: seq<Vlan>)
      ensures this.ifaces == ifaces && this.vlans == vlans && subnetMap == map[]
    {
      this.ifaces, this.vlans, subnetMap := ifaces, vlans, map[];
    }

    method FindParent(parent: string) returns (device: string)
      ensures device == ParentDevice(ifaces, parent)
    {
      device := "";
      for k := 0 to |ifaces|
        invariant ParentDevice(ifaces, parent) == ParentDevice(ifaces[k..], parent)
      {
        assert ifaces[k..][1..] == ifaces[k + 1..];
        if ifaces[k].id == parent { return ifaces[k].device; }
      }
    }

    /** One round of the loop: the VLAN's entry, unless it is unusable or its ID does not fit. */
    method Announce(vlan: Vlan, maxSla: int, auto: int) returns (entry: Option<Announcement>)
      ensures entry == if Usable(ifaces, vlan) && Pick(subnetMap, vlan.id, auto) <= maxSla
                       then Some(Announcement(vlan.id, Device(ifaces, vlan), Pick(subnetMap, vlan.id, auto))) else None
    {
      if vlan.id == "" { return None; }
      var parentDev := FindParent(vlan.parent);
      if parentDev == "" || vlan.vid == 0 { return None; }
      var dev := parentDev + "." + (if vlan.vid < 0 then "-" + Dec(-vlan.vid) else Dec(vlan.vid));
      var sla := if vlan.id in subnetMap then subnetMap[vlan.id] else auto;
      if sla > maxSla { return None; }
      return Some(Announcement(vlan.id, dev, sla));
    }

    method BuildPrefixInterfaces(lanDev: string, slaLen: nat) returns (out: seq<Announcement>)
      ensures out == Announced(lanDev, ifaces, vlans, subnetMap, slaLen)
    {
      out := [Announcement(LAN, lanDev, if LAN in subnetMap then subnetMap[LAN] else 0)];
      if slaLen == 0 { return; }
      var maxSla, auto := Pow2(slaLen) - 1, 1;
      ghost var all := Announced(lanDev, ifaces, vlans, subnetMap, slaLen);
      for i := 0 to |vlans|
        invariant out + Entries(ifaces, UsableOf(ifaces, vlans[i..]), subnetMap, maxSla, auto) == all
      {
        assert vlans[i..][1..] == vlans[i + 1..];
        ghost var rest := UsableOf(ifaces, vlans[i + 1..]);
        assert ([vlans[i]] + rest)[1..] == rest;
        var entry := Announce(vlans[i], maxSla, auto);
        if entry.None? { continue; }
        out := out + [entry.value];
        auto := auto + 1;
      }
      assert vlans[|vlans|..] == [];
      assert out + [] == out;
    }

    /** Go walks the map in no particular order; whether it reports an error does not depend on it. */
    method ValidateSubnetMap(m: SubnetMap) returns (ok: bool)
      ensures ok <==> ValidMap(m, vlans)
    {
      if LAN in m && m[LAN] != 0 { return false; }
      var seen: set<int> := {};
      var todo := m.Keys;
      while todo != {}
        invariant todo <= m.Keys
        invariant forall k :: k in m && k !in todo ==> m[k] in seen && m[k] >= 0 && (k == LAN || Known(vlans, k))
        invariant forall v :: v in seen ==> exists k :: k in m && k !in todo && m[k] == v
        invariant forall k, l :: k in m && l in m && k !in todo && l !in todo && k != l ==> m[k] != m[l]
        decreases |todo|
      {
        var key :| key in todo;
        if m[key] < 0 { return false; }
        if key != LAN && !Known(vlans, key) { return false; }
        if m[key] in seen { return false; }
        ghost var before := todo;
        seen := seen + {m[key]};
        todo := todo - {key};
        assert key in m && key !in todo;
        assert forall k :: k in m && k !in before ==> k !in todo;
      }
      return true;
    }

    /** The map stays replaced in memory when saving or re-applying the configuration fails. */
    method SetSubnetMap(m: SubnetMap, saved: bool, applied: bool) returns (ok: bool)
      modifies this`subnetMap
      ensures ok <==> ValidMap(m, vlans) && saved && applied
      ensures subnetMap == if ValidMap(m, vlans) then m else old(subnetMap)
    {
      var valid := ValidateSubnetMap(m);
      if !valid { return false; }
      subnetMap := m;
      if !saved { return false; }
      return applied;
    }

    /** HandleSubnetMap: an order list, led by "lan", becomes the map from name to position. */
    method HandleSubnetMap(order: seq<string>, saved: bool, applied: bool) returns (ok: bool)
      modifies this`subnetMap
      ensures ok <==> GoodOrder(order) && ValidMap(OrderMap(order), vlans) && saved && applied
      ensures subnetMap == if GoodOrder(order) && ValidMap(OrderMap(order), vlans) then OrderMap(order) else old(subnetMap)
    {
      if |order| == 0 || order[0] != LAN { return false; }
      var good, m := NumberNames(order);
      if !good { return false; }
      ok := SetSubnetMap(m, saved, applied);
    }

    method NumberNames(order: seq<string>) returns (good: bool, m: SubnetMap)
      ensures good <==> GoodNames(Trimmed(order))
      ensures good ==> m == OrderMap(order)
    {
      hide TrimSpace, Positions, GoodNames;
      m := map[];
      ghost var names := Trimmed(order);
      NoPositions();
      NoNames();
      for i := 0 to |order|
        invariant GoodNames(names[..i]) && m == Positions(names[..i])
      {
        var name := TrimSpace(order[i]);
        assert name == names[i];
        NextName(names, i);
        if name == "" { return false, m; }
        if name in m { return false, m; }
        PositionsSnoc(names[..i], name);
        assert names[..i + 1] == names[..i] + [name];
        m := m[name := i];
      }
      assert names[..|order|] == names;
      good := true;
    }
  }

  lemma NoPositions()
    ensures Positions([]) == map[]
  {}

  lemma NoNames()
    ensures GoodNames([])
  {}

  /** A name that is empty or was there before spoils the list. */
  lemma NextName(names: seq<string>, i: nat)
    requires i < |names| && GoodNames(names[..i])
    ensures GoodNames(names[..i + 1]) <==> names[i] != "" && names[i] !in names[..i]
    ensures GoodNames(names) ==> GoodNames(names[..i + 1])
  {
    var front := names[..i + 1];
    assert front == names[..i] + [names[i]];
    if names[i] in names[..i] {
      var k :| 0 <= k < i && names[..i][k] == names[i];
      assert front[k] == front[i];
    }
  }

  // ---------- Maps ----------

  predicate Known(vlans: seq<Vlan>, key: string) { exists i :: 0 <= i < |vlans| && vlans[i].id != "" && vlans[i].id == key }

  predicate ValidMap(m: SubnetMap, vlans: seq<Vlan>) {
    && (LAN in m ==> m[LAN] == 0)
    && (forall k :: k in m ==> m[k] >= 0 && (k == LAN || Known(vlans, k)))
    && (forall k, l :: k in m && l in m && k != l ==> m[k] != m[l])
  }

  function Trimmed(order: seq<string>): seq<string> { seq(|order|, i requires 0 <= i < |order| => TrimSpace(order[i])) }

  predicate GoodNames(names: seq<string>) {
    && (forall k :: 0 <= k < |names| ==> names[k] != "")
    && (forall k, l :: 0 <= k < l < |names| ==> names[k] != names[l])
  }

  predicate GoodOrder(order: seq<string>) { order != [] && order[0] == LAN && GoodNames(Trimmed(order)) }

  /** Each name at its last position. */
  function Positions(names: seq<string>): (m: SubnetMap)
    ensures forall n :: n in m <==> n in names
    ensures forall n :: n in m ==> 0 <= m[n] < |names| && names[m[n]] == n
  {
    if names == [] then map[] else
      var k := |names| - 1;
      assert names == names[..k] + [names[k]];
      Positions(names[..k])[names[k] := k]
  }

  function OrderMap(order: seq<string>): SubnetMap { Positions(Trimmed(order)) }

  lemma PositionsSnoc(names: seq<string>, last: string)
    ensures Positions(names + [last]) == Positions(names)[last := |names|]
  {
    assert (names + [last])[..|names|] == names;
  }

  /** In an order without duplicates a name has its own position. */
  lemma PositionOf(names: seq<string>, k: nat)
    requires GoodNames(names) && k < |names|
    ensures names[k] in Positions(names) && Positions(names)[names[k]] == k
  {
    hide Positions;
  }

  lemma LanFirst(order: seq<string>)
    requires GoodOrder(order)
    ensures Trimmed(order)[0] == LAN
  {
    assert TrimSpace(LAN) == LAN;
  }

  /** An accepted order of known names always passes validation. */
  lemma OrderValid(order: seq<string>, vlans: seq<Vlan>)
    requires GoodOrder(order)
    requires forall k :: 1 <= k < |order| ==> Known(vlans, Trimmed(order)[k])
    ensures ValidMap(OrderMap(order), vlans)
  {
    LanFirst(order);
    PositionOf(Trimmed(order), 0);
    hide Positions, Trimmed, Known;
    PositionsValid(OrderMap(order), Trimmed(order), vlans);
  }

  lemma PositionsValid(m: SubnetMap, names: seq<string>, vlans: seq<Vlan>)
    requires names != [] && names[0] == LAN && (LAN in m ==> m[LAN] == 0)
    requires forall k :: 1 <= k < |names| ==> Known(vlans, names[k])
    requires forall n :: n in m ==> 0 <= m[n] < |names| && names[m[n]] == n
    ensures ValidMap(m, vlans)
  {
    hide Known;
  }

  // ---------- Which VLANs, on which devices ----------

  /** Interface i is the first of that ID. */
  ghost predicate FirstWithId(ifaces: seq<Iface>, id: string, i: nat)
    requires i < |ifaces|
  {
    ifaces[i].id == id && forall j :: 0 <= j < i ==> ifaces[j].id != id
  }

  lemma {:induction false} ParentMeans(ifaces: seq<Iface>, id: string, i: nat)
    ensures i < |ifaces| && FirstWithId(ifaces, id, i) ==> ParentDevice(ifaces, id) == ifaces[i].device
    ensures (forall j :: 0 <= j < |ifaces| ==> ifaces[j].id != id) ==> ParentDevice(ifaces, id) == ""
  {
    if ifaces != [] && ifaces[0].id != id {
      var rest := ifaces[1..];
      assert forall j :: 0 <= j < |rest| ==> rest[j] == ifaces[j + 1];
      ParentMeans(rest, id, if i > 0 then i - 1 else 0);
      if 0 < i < |ifaces| && FirstWithId(ifaces, id, i) {
        assert forall j :: 0 <= j < i - 1 ==> rest[j].id != id;
      }
    }
  }

  lemma {:induction false} UsableConcat(ifaces: seq<Iface>, a: seq<Vlan>, b: seq<Vlan>)
    ensures UsableOf(ifaces, a + b) == UsableOf(ifaces, a) + UsableOf(ifaces, b)
  {
    hide Usable;
    if a == [] {
      assert a + b == b;
    } else {
      assert (a + b)[1..] == a[1..] + b;
      UsableConcat(ifaces, a[1..], b);
    }
  }

  /** A VLAN is announced, in its place, exactly when it has an ID, a tag and a parent with a device. */
  lemma UsableMeans(ifaces: seq<Iface>, a: seq<Vlan>, v: Vlan, b: seq<Vlan>)
    ensures var kept := v.id != "" && v.vid != 0 && ParentDevice(ifaces, v.parent) != "";
            UsableOf(ifaces, a + [v] + b) == UsableOf(ifaces, a) + (if kept then [v] else []) + UsableOf(ifaces, b)
  {
    hide UsableOf;
    UsableConcat(ifaces, a + [v], b);
    UsableConcat(ifaces, a, [v]);
    UsableOne(ifaces, v);
  }

  lemma UsableOne(ifaces: seq<Iface>, v: Vlan)
    ensures UsableOf(ifaces, [v]) == if v.id != "" && v.vid != 0 && ParentDevice(ifaces, v.parent) != "" then [v] else []
  {
    hide ParentDevice;
    assert [v][1..] == [];
    assert UsableOf(ifaces, []) == [];
  }

  /** With room for all, every usable VLAN is announced in order, on parent.tag, under its mapped number or its
      place. */
  lemma {:induction false} AllAnnounced(ifaces: seq<Iface>, us: seq<Vlan>, m: SubnetMap, maxSla: int, auto: int, i: nat)
    requires AllFit(us, m, maxSla) && auto + |us| - 1 <= maxSla && i < |us|
    ensures var es := Entries(ifaces, us, m, maxSla, auto);
            && |es| == |us| && es[i].name == us[i].id
            && es[i].sla == (if us[i].id in m then m[us[i].id] else auto + i)
            && (us[i].vid > 0 ==> es[i].device == ParentDevice(ifaces, us[i].parent) + "." + Dec(us[i].vid))
            && (us[i].vid < 0 ==> es[i].device == ParentDevice(ifaces, us[i].parent) + "." + "-" + Dec(-us[i].vid))
    decreases |us|
  {
    hide Dec, ParentDevice;
    var rest := us[1..];
    assert forall j :: 0 <= j < |rest| ==> rest[j] == us[j + 1];
    if |rest| > 0 { AllAnnounced(ifaces, rest, m, maxSla, auto + 1, if i > 0 then i - 1 else 0); }
    if us[0].vid < 0 {
      assert ParentDevice(ifaces, us[0].parent) + "." + ("-" + Dec(-us[0].vid)) == ParentDevice(ifaces, us[0].parent) + "." + "-" + Dec(-us[0].vid);
    }
  }

  // ---------- Numbering ----------

  /** The k-th announced VLAN, counted from 0, carries its mapped ID or auto + k, and never more than the maximum. */
  lemma {:induction false} EntryAt(ifaces: seq<Iface>, vs: seq<Vlan>, m: SubnetMap, maxSla: int, auto: int, k: nat)
    requires k < |Entries(ifaces, vs, m, maxSla, auto)|
    ensures var e := Entries(ifaces, vs, m, maxSla, auto)[k];
            && e.sla == Pick(m, e.name, auto + k) && e.sla <= maxSla
            && exists i :: 0 <= i < |vs| && vs[i].id == e.name
    decreases |vs|
  {
    var es := Entries(ifaces, vs, m, maxSla, auto);
    if Pick(m, vs[0].id, auto) > maxSla {
      EntryAt(ifaces, vs[1..], m, maxSla, auto, k);
      var i :| 0 <= i < |vs[1..]| && vs[1..][i].id == es[k].name;
      assert vs[i + 1].id == es[k].name;
    } else if k > 0 {
      assert es[k] == Entries(ifaces, vs[1..], m, maxSla, auto + 1)[k - 1];
      EntryAt(ifaces, vs[1..], m, maxSla, auto + 1, k - 1);
      var i :| 0 <= i < |vs[1..]| && vs[1..][i].id == es[k].name;
      assert vs[i + 1].id == es[k].name;
    }
  }

  predicate DistinctIds(vs: seq<Vlan>) { forall i, j :: 0 <= i < j < |vs| ==> vs[i].id != vs[j].id }

  predicate DistinctSlas(out: seq<Announcement>) { forall i, j :: 0 <= i < j < |out| ==> out[i].sla != out[j].sla }

  /** The VLANs left when those with a mapped number above the maximum are skipped. */
  function Fitting(us: seq<Vlan>, m: SubnetMap, maxSla: int): seq<Vlan> {
    if us == [] then []
    else if us[0].id in m && m[us[0].id] > maxSla then Fitting(us[1..], m, maxSla)
    else [us[0]] + Fitting(us[1..], m, maxSla)
  }

  predicate AllFit(us: seq<Vlan>, m: SubnetMap, maxSla: int) { forall i :: 0 <= i < |us| ==> us[i].id !in m || m[us[i].id] <= maxSla }

  lemma {:induction false} FittingEntries(ifaces: seq<Iface>, us: seq<Vlan>, m: SubnetMap, maxSla: int, auto: int)
    ensures AllFit(Fitting(us, m, maxSla), m, maxSla)
    ensures Entries(ifaces, us, m, maxSla, auto) == Entries(ifaces, Fitting(us, m, maxSla), m, maxSla, auto)
    decreases |us|
  {
    hide Device;
    if us != [] {
      FittingEntries(ifaces, us[1..], m, maxSla, auto);
      FittingEntries(ifaces, us[1..], m, maxSla, auto + 1);
      var rest := Fitting(us[1..], m, maxSla);
      assert ([us[0]] + rest)[1..] == rest;
    }
  }

  /** The number of the i-th VLAN of a list that starts at number `at`: as mapped, or its place while that fits. */
  function NumberAt(ks: seq<Vlan>, m: SubnetMap, maxSla: int, at: int, i: nat): Option<int>
    requires i < |ks|
  {
    if ks[i].id in m then Some(m[ks[i].id]) else if at + i <= maxSla then Some(at + i) else None
  }

  function Numbers(ks: seq<Vlan>, m: SubnetMap, maxSla: int, at: int): seq<int> {
    if ks == [] then [] else
      var n := NumberAt(ks, m, maxSla, at, 0);
      (if n.Some? then [n.value] else []) + Numbers(ks[1..], m, maxSla, at + 1)
  }

  function Slas(es: seq<Announcement>): seq<int> { seq(|es|, i requires 0 <= i < |es| => es[i].sla) }

  /** Once an automatic number is too large, so are all later ones: skipped VLANs leave no gaps. */
  lemma {:induction false} EntriesNumbers(ifaces: seq<Iface>, ks: seq<Vlan>, m: SubnetMap, maxSla: int, auto: int, at: int)
    requires AllFit(ks, m, maxSla) && (auto == at || (auto > maxSla && at > maxSla))
    ensures Slas(Entries(ifaces, ks, m, maxSla, auto)) == Numbers(ks, m, maxSla, at)
    decreases |ks|
  {
    hide Device;
    if ks != [] {
      assert forall i :: 0 <= i < |ks| - 1 ==> ks[1..][i] == ks[i + 1];
      var skip := Pick(m, ks[0].id, auto) > maxSla;
      EntriesNumbers(ifaces, ks[1..], m, maxSla, if skip then auto else auto + 1, at + 1);
      assert Slas(Entries(ifaces, ks, m, maxSla, auto))
          == (if skip then [] else [Pick(m, ks[0].id, auto)]) + Slas(Entries(ifaces, ks[1..], m, maxSla, if skip then auto else auto + 1));
    }
  }

  ghost predicate Numbered(ks: seq<Vlan>, m: SubnetMap, maxSla: int, at: int, v: int) {
    exists i :: 0 <= i < |ks| && NumberAt(ks, m, maxSla, at, i) == Some(v)
  }

  predicate Apart(ks: seq<Vlan>, m: SubnetMap, maxSla: int, at: int, i: nat, j: nat)
    requires i < |ks| && j < |ks|
  {
    NumberAt(ks, m, maxSla, at, i).Some? ==> NumberAt(ks, m, maxSla, at, i) != NumberAt(ks, m, maxSla, at, j)
  }

  predicate Distinct(ns: seq<int>) { forall i, j :: 0 <= i < j < |ns| ==> ns[i] != ns[j] }

  lemma DistinctCons(n: int, ns: seq<int>)
    ensures Distinct([n] + ns) <==> n !in ns && Distinct(ns)
  {
    var all := [n] + ns;
    assert forall i :: 0 <= i < |ns| ==> all[i + 1] == ns[i];
    if Distinct(all) {
      forall j | 0 <= j < |ns| ensures n != ns[j] { assert all[0] != all[j + 1]; }
      forall i, j | 0 <= i < j < |ns| ensures ns[i] != ns[j] { assert all[i + 1] != all[j + 1]; }
    }
  }

  lemma NumberShift(ks: seq<Vlan>, m: SubnetMap, maxSla: int, at: int, i: nat)
    requires i + 1 < |ks|
    ensures NumberAt(ks[1..], m, maxSla, at + 1, i) == NumberAt(ks, m, maxSla, at, i + 1)
  {}

  lemma {:induction false} NumbersHold(ks: seq<Vlan>, m: SubnetMap, maxSla: int, at: int, v: int)
    ensures v in Numbers(ks, m, maxSla, at) <==> Numbered(ks, m, maxSla, at, v)
    decreases |ks|
  {
    hide NumberAt;
    if ks != [] {
      NumbersHold(ks[1..], m, maxSla, at + 1, v);
      if Numbered(ks, m, maxSla, at, v) {
        var i :| 0 <= i < |ks| && NumberAt(ks, m, maxSla, at, i) == Some(v);
        if i > 0 { NumberShift(ks, m, maxSla, at, i - 1); }
      }
      if Numbered(ks[1..], m, maxSla, at + 1, v) {
        var i :| 0 <= i < |ks| - 1 && NumberAt(ks[1..], m, maxSla, at + 1, i) == Some(v);
        NumberShift(ks, m, maxSla, at, i);
      }
    }
  }

  ghost predicate AllApart(ks: seq<Vlan>, m: SubnetMap, maxSla: int, at: int) {
    forall i, j :: 0 <= i < j < |ks| ==> Apart(ks, m, maxSla, at, i, j)
  }

  lemma ApartCons(ks: seq<Vlan>, m: SubnetMap, maxSla: int, at: int)
    requires ks != []
    ensures AllApart(ks, m, maxSla, at) <==>
            && AllApart(ks[1..], m, maxSla, at + 1)
            && (NumberAt(ks, m, maxSla, at, 0).Some? ==> !Numbered(ks[1..], m, maxSla, at + 1, NumberAt(ks, m, maxSla, at, 0).value))
  {
    hide NumberAt;
    var rest, next := ks[1..], at + 1;
    forall i | 1 <= i < |ks| ensures NumberAt(ks, m, maxSla, at, i) == NumberAt(rest, m, maxSla, next, i - 1) {
      NumberShift(ks, m, maxSla, at, i - 1);
    }
    if AllApart(ks, m, maxSla, at) {
      forall i, j | 0 <= i < j < |rest| ensures Apart(rest, m, maxSla, next, i, j) { assert Apart(ks, m, maxSla, at, i + 1, j + 1); }
      var n := NumberAt(ks, m, maxSla, at, 0);
      forall j | 0 <= j < |rest| && n.Some? ensures NumberAt(rest, m, maxSla, next, j) != n { assert Apart(ks, m, maxSla, at, 0, j + 1); }
    }
    if AllApart(rest, m, maxSla, next) {
      forall i, j | 1 <= i < j < |ks| ensures Apart(ks, m, maxSla, at, i, j) { assert Apart(rest, m, maxSla, next, i - 1, j - 1); }
    }
  }

  lemma {:induction false} NumbersDistinct(ks: seq<Vlan>, m: SubnetMap, maxSla: int, at: int)
    ensures Distinct(Numbers(ks, m, maxSla, at)) <==> AllApart(ks, m, maxSla, at)
    decreases |ks|
  {
    hide NumberAt, AllApart, Numbered;
    if ks == [] {
      NoneApart(ks, m, maxSla, at);
    } else {
      var n, rest := NumberAt(ks, m, maxSla, at, 0), Numbers(ks[1..], m, maxSla, at + 1);
      NumbersDistinct(ks[1..], m, maxSla, at + 1);
      ApartCons(ks, m, maxSla, at);
      if n.Some? {
        NumbersHold(ks[1..], m, maxSla, at + 1, n.value);
        DistinctCons(n.value, rest);
      } else {
        assert Numbers(ks, m, maxSla, at) == [] + rest == rest;
      }
    }
  }

  lemma NoneApart(ks: seq<Vlan>, m: SubnetMap, maxSla: int, at: int)
    requires ks == []
    ensures AllApart(ks, m, maxSla, at)
  {}

  /** What an operator can check beforehand: a mapped number is not the LAN's, not another VLAN's, and not
      the place of a VLAN without a number; and a VLAN without a number does not stand in the LAN's place. */
  ghost predicate Clear(ks: seq<Vlan>, m: SubnetMap, maxSla: int, lan: int, i: nat)
    requires i < |ks|
  {
    if ks[i].id in m then
      var v := m[ks[i].id];
      && v != lan && !(1 <= v <= |ks| && ks[v - 1].id !in m)
      && forall j :: 0 <= j < i ==> ks[j].id in m ==> m[ks[j].id] != v
    else i + 1 != lan || lan > maxSla
  }

  ghost predicate NoClash(ks: seq<Vlan>, m: SubnetMap, maxSla: int, lan: int) {
    forall i :: 0 <= i < |ks| ==> Clear(ks, m, maxSla, lan, i)
  }

  lemma NoClashIff(ks: seq<Vlan>, m: SubnetMap, maxSla: int, lan: int)
    requires AllFit(ks, m, maxSla)
    ensures NoClash(ks, m, maxSla, lan) <==> !Numbered(ks, m, maxSla, 1, lan) && AllApart(ks, m, maxSla, 1)
  {
    if NoClash(ks, m, maxSla, lan) {
      forall i, j | 0 <= i < j < |ks| ensures Apart(ks, m, maxSla, 1, i, j) {
        assert Clear(ks, m, maxSla, lan, i) && Clear(ks, m, maxSla, lan, j);
      }
      forall i | 0 <= i < |ks| ensures NumberAt(ks, m, maxSla, 1, i) != Some(lan) { assert Clear(ks, m, maxSla, lan, i); }
    }
    if !Numbered(ks, m, maxSla, 1, lan) && AllApart(ks, m, maxSla, 1) {
      forall i | 0 <= i < |ks| ensures Clear(ks, m, maxSla, lan, i) { ClearAt(ks, m, maxSla, lan, i); }
    }
  }

  lemma ClearAt(ks: seq<Vlan>, m: SubnetMap, maxSla: int, lan: int, i: nat)
    requires i < |ks| && AllFit(ks, m, maxSla) && !Numbered(ks, m, maxSla, 1, lan) && AllApart(ks, m, maxSla, 1)
    ensures Clear(ks, m, maxSla, lan, i)
  {
    assert NumberAt(ks, m, maxSla, 1, i) != Some(lan);
    if ks[i].id in m {
      var v := m[ks[i].id];
      forall j | 0 <= j < i && ks[j].id in m ensures m[ks[j].id] != v { assert Apart(ks, m, maxSla, 1, j, i); }
      if 1 <= v <= |ks| {
        assert i < v - 1 ==> Apart(ks, m, maxSla, 1, i, v - 1);
        assert v - 1 < i ==> Apart(ks, m, maxSla, 1, v - 1, i);
      }
    }
  }

  /** For every map, validated or not: the announced IDs are distinct exactly when nothing clashes. */
  lemma DistinctIff(lanDev: string, ifaces: seq<Iface>, vlans: seq<Vlan>, m: SubnetMap, slaLen: nat)
    ensures DistinctSlas(Announced(lanDev, ifaces, vlans, m, slaLen)) <==>
            slaLen == 0 || NoClash(Fitting(UsableOf(ifaces, vlans), m, Pow2(slaLen) - 1), m, Pow2(slaLen) - 1, Pick(m, LAN, 0))
  {
    hide Entries, NoClash, UsableOf, Numbered, AllApart, AllFit, Fitting;
    if slaLen > 0 {
      var us, top, lan := UsableOf(ifaces, vlans), Pow2(slaLen) - 1, Pick(m, LAN, 0);
      var ks, out := Fitting(us, m, top), Announced(lanDev, ifaces, vlans, m, slaLen);
      FittingEntries(ifaces, us, m, top, 1);
      EntriesNumbers(ifaces, ks, m, top, 1, 1);
      assert Slas(out) == [lan] + Numbers(ks, m, top, 1);
      DistinctCons(lan, Numbers(ks, m, top, 1));
      NumbersHold(ks, m, top, 1, lan);
      NumbersDistinct(ks, m, top, 1);
      NoClashIff(ks, m, top, lan);
      SlasDistinct(out);
    }
  }

  lemma SlasDistinct(out: seq<Announcement>)
    ensures DistinctSlas(out) <==> Distinct(Slas(out))
  {
    assert forall i :: 0 <= i < |out| ==> Slas(out)[i] == out[i].sla;
  }

  /** The table accepts an order that leaves a VLAN out, and two VLANs then announce the same subnet. */
  lemma PartialOrderClashes()
    ensures var ifaces, a, b := [Iface("br", "br0")], Vlan("a", "br", 10), Vlan("b", "br", 20);
            var m := OrderMap([LAN, "b"]);
            && GoodOrder([LAN, "b"]) && ValidMap(m, [a, b])
            && Announced("br0", ifaces, [a, b], m, 8) ==
               [Announcement(LAN, "br0", 0), Announcement("a", Device(ifaces, a), 1), Announcement("b", Device(ifaces, b), 1)]
  {
    var ifaces, a, b := [Iface("br", "br0")], Vlan("a", "br", 10), Vlan("b", "br", 20);
    ShortOrder();
    EightBits();
    BothUsable(ifaces, a, b);
    assert [a, b][1].id == "b";
    hide OrderMap, GoodOrder, UsableOf, Device, Pow2;
    var m := OrderMap([LAN, "b"]);
    assert ValidMap(m, [a, b]);
    assert [a, b][1..] == [b] && [b][1..] == [];
    assert Entries(ifaces, [b], m, 255, 2) == [Announcement("b", Device(ifaces, b), 1)];
  }

  lemma BothUsable(ifaces: seq<Iface>, a: Vlan, b: Vlan)
    requires ifaces == [Iface("br", "br0")] && a.parent == b.parent == "br" && a.id != "" && b.id != "" && a.vid != 0 && b.vid != 0
    ensures UsableOf(ifaces, [a, b]) == [a, b]
  {
    assert [a, b][1..] == [b] && [b][1..] == [];
    assert UsableOf(ifaces, [b]) == [b];
  }

  lemma ShortOrder()
    ensures GoodOrder([LAN, "b"]) && OrderMap([LAN, "b"]) == map[LAN := 0, "b" := 1]
  {
    assert TrimSpace(LAN) == LAN && TrimSpace("b") == "b";
    assert Trimmed([LAN, "b"]) == [LAN, "b"];
    hide TrimSpace, Trimmed;
    NoPositions();
    PositionsSnoc([], LAN);
    PositionsSnoc([LAN], "b");
    assert [] + [LAN] == [LAN] && [LAN] + ["b"] == [LAN, "b"];
  }

  /** Announced IDs fit the subnet bits of the delegation. */
  lemma IdsInRange(lanDev: string, ifaces: seq<Iface>, vlans: seq<Vlan>, m: SubnetMap, slaLen: nat, i: nat)
    requires i < |Announced(lanDev, ifaces, vlans, m, slaLen)| && Pick(m, LAN, 0) == 0
    requires forall j :: 0 <= j < |UsableOf(ifaces, vlans)| ==> Pick(m, UsableOf(ifaces, vlans)[j].id, 0) >= 0
    ensures 0 <= Announced(lanDev, ifaces, vlans, m, slaLen)[i].sla < Pow2(slaLen)
  {
    if i > 0 {
      var us := UsableOf(ifaces, vlans);
      EntryAt(ifaces, us, m, Pow2(slaLen) - 1, 1, i - 1);
      var e := Entries(ifaces, us, m, Pow2(slaLen) - 1, 1)[i - 1];
      var j :| 0 <= j < |us| && us[j].id == e.name;
      assert Pick(m, us[j].id, 0) >= 0;
    }
  }

  /** Number of the /64 that an SLA-ID selects inside a delegated prefix. */
  function SubnetNumber(prefix: int, sla: int, slaLen: nat): int { prefix * Pow2(slaLen) + sla }

  /** The address, as a number, lies in the announced /64. */
  predicate InSubnet(address: int, prefix: int, sla: int, slaLen: nat) { address / Pow2(64) == SubnetNumber(prefix, sla, slaLen) }

  /** The address lies in the delegated prefix. */
  predicate InPrefix(address: int, prefix: int, slaLen: nat) { address / Pow2(64) / Pow2(slaLen) == prefix }

  /** Every announced /64 lies inside the delegated prefix, and no two share an address. */
  ghost predicate SubnetsDisjoint(out: seq<Announcement>, prefix: int, slaLen: nat) {
    && (forall i, x :: 0 <= i < |out| && InSubnet(x, prefix, out[i].sla, slaLen) ==> InPrefix(x, prefix, slaLen))
    && (forall i, j, x :: 0 <= i < j < |out| && InSubnet(x, prefix, out[i].sla, slaLen) ==> !InSubnet(x, prefix, out[j].sla, slaLen))
  }

  lemma InsidePrefix(prefix: int, sla: int, slaLen: nat)
    requires 0 <= sla < Pow2(slaLen)
    ensures SubnetNumber(prefix, sla, slaLen) / Pow2(slaLen) == prefix
  {
    DivUnique(SubnetNumber(prefix, sla, slaLen), prefix, sla, Pow2(slaLen));
  }

  lemma DistinctDisjoint(out: seq<Announcement>, prefix: int, slaLen: nat)
    requires DistinctSlas(out) && forall i :: 0 <= i < |out| ==> 0 <= out[i].sla < Pow2(slaLen)
    ensures SubnetsDisjoint(out, prefix, slaLen)
  {
    forall i, x | 0 <= i < |out| && InSubnet(x, prefix, out[i].sla, slaLen) ensures InPrefix(x, prefix, slaLen) {
      InsidePrefix(prefix, out[i].sla, slaLen);
    }
  }

  // ---------- Orders from the user interface ----------

  function Interval(n: nat): (s: set<int>)
    ensures |s| == n
    ensures forall v :: v in s <==> 1 <= v <= n
  {
    if n == 0 then {} else
      assert n !in Interval(n - 1);
      Interval(n - 1) + {n}
  }

  predicate Covers(ns: seq<int>, n: nat) { forall v :: 1 <= v <= n ==> v in ns }

  /** A list with all of 1..n in it has at least n entries. */
  lemma CoverLength(ns: seq<int>, n: nat)
    requires Covers(ns, n)
    ensures n <= |ns|
  {
    var all := set x | x in ns;
    assert Interval(n) <= all;
    SubsetSize(Interval(n), all);
    MembersSize(ns);
  }

  lemma {:induction false} SubsetSize<T>(a: set<T>, b: set<T>)
    requires a <= b
    ensures |a| <= |b|
  {
    if a != {} {
      var x :| x in a;
      SubsetSize(a - {x}, b - {x});
    }
  }

  lemma {:induction false} MembersSize(ns: seq<int>)
    ensures |set x | x in ns| <= |ns|
  {
    if ns != [] {
      MembersSize(ns[1..]);
      var a, b := set x | x in ns, set x | x in ns[1..];
      assert a <= b + {ns[0]};
      SubsetSize(a, b + {ns[0]});
    }
  }

  /** n numbers that cover 1..n are distinct. */
  lemma CoverDistinct(ns: seq<int>)
    requires Covers(ns, |ns|)
    ensures Distinct(ns)
  {
    forall i, j | 0 <= i < j < |ns| ensures ns[i] != ns[j] {
      var rest := ns[..j] + ns[j + 1..];
      if ns[i] == ns[j] {
        forall v | 1 <= v <= |ns| ensures v in rest {
          assert v in ns;
          var k :| 0 <= k < |ns| && ns[k] == v;
          assert v == if k < j then rest[k] else if k == j then rest[i] else rest[k - 1];
        }
        CoverLength(rest, |ns|);
      }
    }
  }

  /** The first k usable VLANs are mapped onto 1..k, the others not at all. */
  predicate PrefixMapped(us: seq<Vlan>, m: SubnetMap, k: nat) {
    && k <= |us|
    && (forall i :: 0 <= i < k ==> us[i].id in m && 1 <= m[us[i].id] <= k)
    && (forall v :: 1 <= v <= k ==> HasNumber(us[..k], m, v))
    && (forall i :: k <= i < |us| ==> us[i].id !in m)
  }

  predicate HasNumber(vs: seq<Vlan>, m: SubnetMap, v: int) { exists i :: 0 <= i < |vs| && vs[i].id in m && m[vs[i].id] == v }

  predicate AllMapped(vs: seq<Vlan>, m: SubnetMap) { forall i :: 0 <= i < |vs| ==> vs[i].id in m }

  function Mapped(vs: seq<Vlan>, m: SubnetMap): seq<int>
    requires AllMapped(vs, m)
  {
    seq(|vs|, i requires 0 <= i < |vs| => m[vs[i].id])
  }

  lemma {:induction false} FittingConcat(a: seq<Vlan>, b: seq<Vlan>, m: SubnetMap, maxSla: int)
    requires forall i :: 0 <= i < |b| ==> b[i].id !in m
    ensures Fitting(a + b, m, maxSla) == Fitting(a, m, maxSla) + b
    decreases |a|
  {
    if a == [] {
      assert a + b == b;
      AllKept(b, m, maxSla);
    } else {
      assert (a + b)[1..] == a[1..] + b;
      FittingConcat(a[1..], b, m, maxSla);
      Regroup([a[0]], Fitting(a[1..], m, maxSla), b);
    }
  }

  lemma MappedCons(v: Vlan, rest: seq<Vlan>, m: SubnetMap)
    requires v.id in m && AllMapped(rest, m)
    ensures AllMapped([v] + rest, m) && Mapped([v] + rest, m) == [m[v.id]] + Mapped(rest, m)
    ensures Distinct(Mapped([v] + rest, m)) <==> m[v.id] !in Mapped(rest, m) && Distinct(Mapped(rest, m))
  {
    DistinctCons(m[v.id], Mapped(rest, m));
    assert Mapped([v] + rest, m) == [m[v.id]] + Mapped(rest, m);
  }

  lemma {:induction false} FittingMapped(a: seq<Vlan>, m: SubnetMap, maxSla: int)
    requires AllMapped(a, m) && Distinct(Mapped(a, m))
    ensures var fa := Fitting(a, m, maxSla);
            && AllMapped(fa, m) && Distinct(Mapped(fa, m))
            && (forall v :: v in Mapped(fa, m) <==> v in Mapped(a, m) && v <= maxSla)
    decreases |a|
  {
    hide Distinct, Mapped;
    if a == [] {
      NoneMapped(m);
    } else {
      var rest := a[1..];
      assert a == [a[0]] + rest && AllMapped(rest, m);
      MappedCons(a[0], rest, m);
      FittingMapped(rest, m, maxSla);
      MappedCons(a[0], Fitting(rest, m, maxSla), m);
    }
  }

  lemma NoneMapped(m: SubnetMap)
    ensures Mapped([], m) == [] && Distinct(Mapped([], m))
  {}

  lemma {:induction false} AllKept(b: seq<Vlan>, m: SubnetMap, maxSla: int)
    requires forall i :: 0 <= i < |b| ==> b[i].id !in m
    ensures Fitting(b, m, maxSla) == b
  {
    if b != [] { AllKept(b[1..], m, maxSla); }
  }

  /** Such a map never clashes, whatever else it contains and however many VLANs do not fit. */
  lemma PrefixMappedNoClash(us: seq<Vlan>, m: SubnetMap, maxSla: nat, k: nat)
    requires PrefixMapped(us, m, k)
    ensures NoClash(Fitting(us, m, maxSla), m, maxSla, 0)
  {
    hide Fitting;
    var a, b := us[..k], us[k..];
    assert us == a + b;
    forall v | 1 <= v <= k ensures v in Mapped(a, m) {
      assert HasNumber(a, m, v);
      var i :| 0 <= i < k && a[i].id in m && m[a[i].id] == v;
      assert Mapped(a, m)[i] == v;
    }
    CoverDistinct(Mapped(a, m));
    FittingMapped(a, m, maxSla);
    FittingConcat(a, b, m, maxSla);
    var fa, n := Fitting(a, m, maxSla), if k < maxSla then k else maxSla;
    var ns := Mapped(fa, m);
    CoverLength(ns, n);
    forall i | 0 <= i < |fa| ensures 1 <= m[fa[i].id] <= |fa| { assert ns[i] in Mapped(a, m); }
    forall i, j | 0 <= j < i < |fa| ensures m[fa[j].id] != m[fa[i].id] { assert ns[j] != ns[i]; }
    var ks := fa + b;
    assert forall i :: 0 <= i < |ks| ==> ks[i] == if i < |fa| then fa[i] else b[i - |fa|];
  }

  /** So the announced IDs are distinct and in range: every announced /64 lies inside the delegated prefix,
      and no two overlap. */
  lemma PrefixMappedDistinct(lanDev: string, ifaces: seq<Iface>, vlans: seq<Vlan>, m: SubnetMap, slaLen: nat, k: nat, prefix: int)
    requires Pick(m, LAN, 0) == 0 && PrefixMapped(UsableOf(ifaces, vlans), m, k)
    ensures DistinctSlas(Announced(lanDev, ifaces, vlans, m, slaLen))
    ensures SubnetsDisjoint(Announced(lanDev, ifaces, vlans, m, slaLen), prefix, slaLen)
  {
    var us, out := UsableOf(ifaces, vlans), Announced(lanDev, ifaces, vlans, m, slaLen);
    assert forall j :: 0 <= j < |us| ==> Pick(m, us[j].id, 0) >= 0;
    hide Announced, UsableOf, PrefixMapped, NoClash, SubnetsDisjoint, DistinctSlas, Fitting;
    PrefixMappedNoClash(us, m, Pow2(slaLen) - 1, k);
    DistinctIff(lanDev, ifaces, vlans, m, slaLen);
    forall i | 0 <= i < |out| ensures 0 <= out[i].sla < Pow2(slaLen) { IdsInRange(lanDev, ifaces, vlans, m, slaLen, i); }
    DistinctDisjoint(out, prefix, slaLen);
  }

  lemma {:induction false} UsableKnown(ifaces: seq<Iface>, vlans: seq<Vlan>, i: nat)
    requires i < |UsableOf(ifaces, vlans)|
    ensures Known(vlans, UsableOf(ifaces, vlans)[i].id)
    decreases |vlans|
  {
    var us := UsableOf(ifaces, vlans);
    if Usable(ifaces, vlans[0]) && i == 0 {
      assert vlans[0].id == us[i].id && vlans[0].id != "";
    } else {
      UsableKnown(ifaces, vlans[1..], if Usable(ifaces, vlans[0]) then i - 1 else i);
      var j :| 0 <= j < |vlans[1..]| && vlans[1..][j].id != "" && vlans[1..][j].id == us[i].id;
      assert vlans[j + 1].id == us[i].id;
    }
  }

  /** The submitted names are "lan" and then exactly the first k usable VLANs, in any order. */
  predicate Orders(names: seq<string>, us: seq<Vlan>, k: nat) {
    && k <= |us| && |names| == k + 1 && GoodNames(names) && names[0] == LAN
    && (forall j :: 1 <= j <= k ==> NamesOne(us[..k], names[j]))
    && (forall i :: 0 <= i < k ==> us[i].id in names)
  }

  predicate NamesOne(vs: seq<Vlan>, name: string) { exists i :: 0 <= i < |vs| && vs[i].id == name }

  lemma PositionNumbered(names: seq<string>, us: seq<Vlan>, k: nat, v: nat)
    requires Orders(names, us, k) && 1 <= v <= k
    ensures HasNumber(us[..k], Positions(names), v)
  {
    hide Positions;
    assert NamesOne(us[..k], names[v]);
    var i :| 0 <= i < k && us[..k][i].id == names[v];
    PositionOf(names, v);
  }

  lemma PositionInRange(names: seq<string>, us: seq<Vlan>, k: nat, i: nat)
    requires Orders(names, us, k) && i < k && us[i].id != LAN
    ensures us[i].id in Positions(names) && 1 <= Positions(names)[us[i].id] <= k
  {
    hide Positions;
    assert names[Positions(names)[us[i].id]] == us[i].id;
  }

  lemma OthersUnmapped(names: seq<string>, us: seq<Vlan>, k: nat, i: nat)
    requires Orders(names, us, k) && DistinctIds(us) && k <= i < |us| && us[i].id != LAN
    ensures us[i].id !in Positions(names)
  {
    hide Positions;
    forall j | 0 <= j < |names| ensures names[j] != us[i].id {
      if j > 0 {
        assert NamesOne(us[..k], names[j]);
        var l :| 0 <= l < k && us[..k][l].id == names[j];
        assert us[l].id != us[i].id;
      }
    }
  }

  lemma OrderPrefixMapped(names: seq<string>, us: seq<Vlan>, k: nat)
    requires Orders(names, us, k) && DistinctIds(us) && forall i :: 0 <= i < |us| ==> us[i].id != LAN
    ensures PrefixMapped(us, Positions(names), k)
  {
    hide Positions, HasNumber, NamesOne;
    var m := Positions(names);
    forall i | 0 <= i < k ensures us[i].id in m && 1 <= m[us[i].id] <= k { PositionInRange(names, us, k, i); }
    forall v | 1 <= v <= k ensures HasNumber(us[..k], m, v) { PositionNumbered(names, us, k, v); }
    forall i | k <= i < |us| ensures us[i].id !in m { OthersUnmapped(names, us, k, i); }
  }

  /** From the sortable table to the wire: an order of the first k usable VLANs is accepted and announced
      with distinct IDs and disjoint subnets. */
  lemma ReorderAnnouncesDistinct(lanDev: string, ifaces: seq<Iface>, vlans: seq<Vlan>, order: seq<string>, slaLen: nat, k: nat, prefix: int)
    requires GoodOrder(order) && Orders(Trimmed(order), UsableOf(ifaces, vlans), k) && DistinctIds(UsableOf(ifaces, vlans))
    requires forall i :: 0 <= i < |UsableOf(ifaces, vlans)| ==> UsableOf(ifaces, vlans)[i].id != LAN
    ensures ValidMap(OrderMap(order), vlans)
    ensures DistinctSlas(Announced(lanDev, ifaces, vlans, OrderMap(order), slaLen))
    ensures SubnetsDisjoint(Announced(lanDev, ifaces, vlans, OrderMap(order), slaLen), prefix, slaLen)
  {
    hide Positions, Trimmed, Announced, UsableOf, PrefixMapped, SubnetsDisjoint, DistinctSlas;
    var us, names := UsableOf(ifaces, vlans), Trimmed(order);
    forall j | 1 <= j < |names| ensures Known(vlans, names[j]) {
      assert NamesOne(us[..k], names[j]);
      var i :| 0 <= i < k && us[..k][i].id == names[j];
      UsableKnown(ifaces, vlans, i);
    }
    OrderLength(order);
    OrderValid(order, vlans);
    OrderPrefixMapped(names, us, k);
    PrefixMappedDistinct(lanDev, ifaces, vlans, OrderMap(order), slaLen, k, prefix);
  }

  lemma OrderLength(order: seq<string>)
    ensures |Trimmed(order)| == |order|
  {}
}
