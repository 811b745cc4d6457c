/** The mirror of static DHCP leases into the persistent DNS record list
    (internal/services/dhcp.go, internal/services/dns.go). The list is shared with
    records of other sources, and is maintained both incrementally and wholesale. */
module StaticDns {
  import opened Text

  datatype Record = Record(name: string, ip: string, source: string, localZone: bool, disableAutoPTR: bool)
  datatype Lease = Lease(mac: string, ip: string, hostname: string)

  const DHCP_STATIC := "dhcp-static"
  const MAX_STATIC_RECORDS := 500

  /** strings.EqualFold compares rune by rune; `f` picks the representative of a rune's case orbit. */
  type Folding = char -> char

  predicate EqualFold(f: Folding, a: string, b: string) {
    |a| == |b| && forall i :: 0 <= i < |a| ==> f(a[i]) == f(b[i])
  }

  function Fqdn(domain: string, hostname: string): string {
    hostname + "." + (if domain == "" then "lan" else domain)
  }

  lemma FqdnFolds(f: Folding, domain: string, a: string, b: string)
    ensures EqualFold(f, Fqdn(domain, a), Fqdn(domain, b)) <==> EqualFold(f, a, b)
  {
    var x, y := Fqdn(domain, a), Fqdn(domain, b);
    if |a| == |b| {
      assert forall i :: 0 <= i < |a| ==> x[i] == a[i] && y[i] == b[i];
    }
  }

  // ---------- The record list as a value ----------

  predicate NameTaken(f: Folding, rs: seq<Record>, name: string) {
    exists i :: 0 <= i < |rs| && EqualFold(f, rs[i].name, name)
  }

  function WithRecord(f: Folding, rs: seq<Record>, r: Record): seq<Record> {
    if |rs| >= MAX_STATIC_RECORDS || NameTaken(f, rs, r.name) then rs else rs + [r]
  }

  function MirrorOf(domain: string, l: Lease): Record {
    Record(Fqdn(domain, l.hostname), l.ip, DHCP_STATIC, false, false)
  }

  function WithMirror(f: Folding, domain: string, rs: seq<Record>, l: Lease): seq<Record> {
    if l.hostname == "" then rs else WithRecord(f, rs, MirrorOf(domain, l))
  }

  /** The record list after mirroring `ls` in order on top of `rs`. */
  function Mirroring(f: Folding, domain: string, rs: seq<Record>, ls: seq<Lease>): seq<Record>
    decreases |ls|
  {
    if ls == [] then rs else Mirroring(f, domain, WithMirror(f, domain, rs, ls[0]), ls[1..])
  }

  predicate IsMirror(r: Record) { r.source == DHCP_STATIC }

  function Foreign(rs: seq<Record>): seq<Record> {
    if rs == [] then []
    else if !IsMirror(rs[0]) then [rs[0]] + Foreign(rs[1..])
    else Foreign(rs[1..])
  }

  function Mirrored(rs: seq<Record>): seq<Record> {
    if rs == [] then []
    else if IsMirror(rs[0]) then [rs[0]] + Mirrored(rs[1..])
    else Mirrored(rs[1..])
  }

  predicate Owns(f: Folding, r: Record, source: string, name: string) {
    r.source == source && EqualFold(f, r.name, name)
  }

  /** Without the first dhcp-static record of that name. */
  function WithoutFirst(f: Folding, rs: seq<Record>, name: string): seq<Record> {
    if rs == [] then []
    else if Owns(f, rs[0], DHCP_STATIC, name) then rs[1..]
    else [rs[0]] + WithoutFirst(f, rs[1..], name)
  }

  /** What SyncStaticDNSRecords leaves. */
  function Rebuilt(f: Folding, domain: string, rs: seq<Record>, ls: seq<Lease>): seq<Record> {
    Mirroring(f, domain, Foreign(rs), ls)
  }

  /** The dhcp-static records are, in order, those of a wholesale rebuild. */
  predicate InSync(f: Folding, domain: string, rs: seq<Record>, ls: seq<Lease>) {
    Mirrored(rs) == Mirrored(Rebuilt(f, domain, rs, ls))
  }

  predicate SameView(a: seq<Record>, b: seq<Record>) { Foreign(a) == Foreign(b) && Mirrored(a) == Mirrored(b) }

  // ---------- Filters ----------

  lemma {:induction false} Concat(a: seq<Record>, b: seq<Record>)
    ensures Foreign(a + b) == Foreign(a) + Foreign(b)
    ensures Mirrored(a + b) == Mirrored(a) + Mirrored(b)
  {
    hide IsMirror;
    if a == [] {
      assert a + b == b;
    } else {
      assert (a + b)[1..] == a[1..] + b;
      Concat(a[1..], b);
      Regroup([a[0]], Foreign(a[1..]), Foreign(b));
      Regroup([a[0]], Mirrored(a[1..]), Mirrored(b));
    }
  }

  lemma {:induction false} Partition(f: Folding, rs: seq<Record>, name: string)
    ensures |rs| == |Foreign(rs)| + |Mirrored(rs)|
    ensures NameTaken(f, rs, name) <==> NameTaken(f, Foreign(rs), name) || NameTaken(f, Mirrored(rs), name)
  {
    if rs != [] {
      Partition(f, rs[1..], name);
      TakenConcat(f, [rs[0]], rs[1..], name);
      assert rs == [rs[0]] + rs[1..];
      if IsMirror(rs[0]) {
        TakenConcat(f, [rs[0]], Mirrored(rs[1..]), name);
      } else {
        TakenConcat(f, [rs[0]], Foreign(rs[1..]), name);
      }
    }
  }

  lemma TakenConcat(f: Folding, a: seq<Record>, b: seq<Record>, name: string)
    ensures NameTaken(f, a + b, name) <==> NameTaken(f, a, name) || NameTaken(f, b, name)
  {
    var c := a + b;
    if NameTaken(f, a, name) {
      var i :| 0 <= i < |a| && EqualFold(f, a[i].name, name);
      assert c[i] == a[i];
    }
    if NameTaken(f, b, name) {
      var i :| 0 <= i < |b| && EqualFold(f, b[i].name, name);
      assert c[|a| + i] == b[i];
    }
    if NameTaken(f, c, name) {
      var i :| 0 <= i < |c| && EqualFold(f, c[i].name, name);
      assert c[i] == if i < |a| then a[i] else b[i - |a|];
    }
  }

  lemma {:induction false} ForeignIdempotent(rs: seq<Record>)
    ensures Foreign(Foreign(rs)) == Foreign(rs) && Mirrored(Foreign(rs)) == []
  {
    if rs != [] {
      ForeignIdempotent(rs[1..]);
      assert ([rs[0]] + Foreign(rs[1..]))[1..] == Foreign(rs[1..]);
    }
  }

  lemma MirrorView(f: Folding, domain: string, a: seq<Record>, b: seq<Record>, l: Lease)
    requires SameView(a, b)
    ensures SameView(WithMirror(f, domain, a, l), WithMirror(f, domain, b, l))
    ensures Foreign(WithMirror(f, domain, a, l)) == Foreign(a)
  {
    var r := MirrorOf(domain, l);
    Partition(f, a, r.name);
    Partition(f, b, r.name);
    Concat(a, [r]);
    Concat(b, [r]);
  }

  lemma {:induction false} MirroringFacts(f: Folding, domain: string, rs: seq<Record>, a: seq<Lease>, b: seq<Lease>)
    ensures Foreign(Mirroring(f, domain, rs, a)) == Foreign(rs)
    ensures Mirroring(f, domain, rs, a + b) == Mirroring(f, domain, Mirroring(f, domain, rs, a), b)
    decreases |a|
  {
    if a == [] {
      assert a + b == b;
    } else {
      assert (a + b)[1..] == a[1..] + b;
      MirroringFacts(f, domain, WithMirror(f, domain, rs, a[0]), a[1..], b);
      MirrorView(f, domain, rs, rs, a[0]);
    }
  }

  lemma {:induction false} WithoutFirstFacts(f: Folding, rs: seq<Record>, name: string)
    ensures Foreign(WithoutFirst(f, rs, name)) == Foreign(rs)
    ensures Mirrored(WithoutFirst(f, rs, name)) == WithoutFirst(f, Mirrored(rs), name)
  {
    if rs != [] {
      WithoutFirstFacts(f, rs[1..], name);
      if !Owns(f, rs[0], DHCP_STATIC, name) {
        assert ([rs[0]] + WithoutFirst(f, rs[1..], name))[1..] == WithoutFirst(f, rs[1..], name);
        assert ([rs[0]] + Mirrored(rs[1..]))[1..] == Mirrored(rs[1..]);
      }
    }
  }

  // ---------- Rebuild ----------

  /** Sync is idempotent and puts any list in sync, keeping the other records in order. */
  lemma RebuildIdempotent(f: Folding, domain: string, rs: seq<Record>, ls: seq<Lease>)
    ensures Foreign(Rebuilt(f, domain, rs, ls)) == Foreign(rs)
    ensures Rebuilt(f, domain, Rebuilt(f, domain, rs, ls), ls) == Rebuilt(f, domain, rs, ls)
    ensures InSync(f, domain, Rebuilt(f, domain, rs, ls), ls)
  {
    ForeignIdempotent(rs);
    MirroringFacts(f, domain, Foreign(rs), ls, []);
  }

  lemma InSyncView(f: Folding, domain: string, rs: seq<Record>, ls: seq<Lease>)
    ensures InSync(f, domain, rs, ls) <==> SameView(rs, Rebuilt(f, domain, rs, ls))
  {
    RebuildIdempotent(f, domain, rs, ls);
  }

  /** Adding a lease keeps the list in sync, whatever the names and however full the list. */
  lemma AddKeepsSync(f: Folding, domain: string, rs: seq<Record>, ls: seq<Lease>, l: Lease)
    requires InSync(f, domain, rs, ls)
    ensures InSync(f, domain, WithMirror(f, domain, rs, l), ls + [l])
    ensures Foreign(WithMirror(f, domain, rs, l)) == Foreign(rs)
  {
    InSyncView(f, domain, rs, ls);
    MirrorView(f, domain, rs, Rebuilt(f, domain, rs, ls), l);
    MirroringFacts(f, domain, Foreign(rs), ls, [l]);
    assert [l][1..] == [];
  }

  /** A lease whose save fails stays in memory without its record: in sync exactly when it would have had
      none, because it names no host, the list is full or the name is taken. */
  lemma UnsavedAddInSyncIff(f: Folding, domain: string, rs: seq<Record>, ls: seq<Lease>, l: Lease)
    requires InSync(f, domain, rs, ls)
    ensures InSync(f, domain, rs, ls + [l]) <==> Full(rs) || LeaseTaken(f, domain, rs, l)
  {
    AddKeepsSync(f, domain, rs, ls, l);
    Concat(rs, [MirrorOf(domain, l)]);
  }

  /** The first lease of an empty configuration, not saved. */
  lemma UnsavedAddBreaks()
    ensures var f, l := c => c, Lease("m1", "10.0.0.1", "nas"); InSync(f, "lan", [], []) && !InSync(f, "lan", [], [l])
  {
    var f: Folding, l := c => c, Lease("m1", "10.0.0.1", "nas");
    NobodyTaken(f, Fqdn("lan", l.hostname));
    hide NameTaken;
    UnsavedAddInSyncIff(f, "lan", [], [], l);
    assert [] + [l] == [l];
  }

  // ---------- Removal ----------

  predicate SameHost(f: Folding, a: Lease, b: Lease) { a.hostname != "" && b.hostname != "" && EqualFold(f, a.hostname, b.hostname) }

  ghost predicate LeaseTaken(f: Folding, domain: string, rs: seq<Record>, l: Lease) {
    l.hostname == "" || NameTaken(f, rs, Fqdn(domain, l.hostname))
  }

  predicate Full(rs: seq<Record>) { |rs| >= MAX_STATIC_RECORDS }

  /** No other lease is waiting for what the removal frees: its name, or a place in a full list. */
  ghost predicate NothingWaits(f: Folding, domain: string, rs: seq<Record>, ls: seq<Lease>, i: nat)
    requires i < |ls|
  {
    && (forall j :: 0 <= j < |ls| && j != i ==> !SameHost(f, ls[i], ls[j]))
    && (Full(rs) ==> forall j :: 0 <= j < |ls| ==> LeaseTaken(f, domain, rs, ls[j]))
  }

  /** Removing lease `i` leaves nothing to mirror: it names no host, it is not mirrored, or nothing waits. */
  ghost predicate Removable(f: Folding, domain: string, rs: seq<Record>, ls: seq<Lease>, i: nat)
    requires i < |ls|
  {
    || ls[i].hostname == ""
    || !NameTaken(f, Mirrored(rs), Fqdn(domain, ls[i].hostname))
    || NothingWaits(f, domain, rs, ls, i)
  }

  function AfterRemove(f: Folding, domain: string, rs: seq<Record>, l: Lease): seq<Record> {
    if l.hostname == "" then rs else WithoutFirst(f, rs, Fqdn(domain, l.hostname))
  }

  lemma EqualFoldSymmetric(f: Folding, a: string, b: string)
    ensures EqualFold(f, a, b) <==> EqualFold(f, b, a)
  {}

  lemma TakenAlike(f: Folding, rs: seq<Record>, a: string, b: string)
    requires EqualFold(f, a, b) && NameTaken(f, rs, b)
    ensures NameTaken(f, rs, a)
  {
    var k :| 0 <= k < |rs| && EqualFold(f, rs[k].name, b);
    assert EqualFold(f, rs[k].name, a);
  }

  lemma MirrorStep(f: Folding, domain: string, rs: seq<Record>, l: Lease, name: string)
    ensures var rs' := WithMirror(f, domain, rs, l);
            && rs <= rs' && (|rs'| <= |rs| || |rs'| <= MAX_STATIC_RECORDS)
            && (LeaseTaken(f, domain, rs', l) || Full(rs'))
            && (NameTaken(f, rs, name) ==> NameTaken(f, rs', name))
            && (NameTaken(f, rs', name) ==> NameTaken(f, rs, name) || (l.hostname != "" && EqualFold(f, Fqdn(domain, l.hostname), name)))
  {
    hide EqualFold, Fqdn;
    var r := MirrorOf(domain, l);
    TakenConcat(f, rs, [r], name);
    TakenConcat(f, rs, [r], r.name);
    assert NameTaken(f, [r], name) <==> EqualFold(f, [r][0].name, name);
    EqualFoldSelf(f, r.name);
    assert NameTaken(f, [r], r.name) by { assert EqualFold(f, [r][0].name, r.name); }
  }

  lemma EqualFoldSelf(f: Folding, a: string)
    ensures EqualFold(f, a, a)
  {}

  /** After mirroring, every lease's name is taken or the list is full; only leases' names were added. */
  lemma {:induction false} MirroringNames(f: Folding, domain: string, rs: seq<Record>, ls: seq<Lease>, name: string)
    ensures var out := Mirroring(f, domain, rs, ls);
            && rs <= out && (|out| <= |rs| || |out| <= MAX_STATIC_RECORDS)
            && (NameTaken(f, rs, name) ==> NameTaken(f, out, name))
            && (NameTaken(f, out, name) ==>
                  NameTaken(f, rs, name) || exists j :: 0 <= j < |ls| && ls[j].hostname != "" && EqualFold(f, Fqdn(domain, ls[j].hostname), name))
    decreases |ls|
  {
    hide NameTaken, EqualFold, Fqdn, WithMirror;
    if ls != [] {
      var rs' := WithMirror(f, domain, rs, ls[0]);
      MirrorStep(f, domain, rs, ls[0], name);
      MirroringNames(f, domain, rs', ls[1..], name);
      if NameTaken(f, Mirroring(f, domain, rs, ls), name) && !NameTaken(f, rs', name) {
        var j :| 0 <= j < |ls[1..]| && ls[1..][j].hostname != "" && EqualFold(f, Fqdn(domain, ls[1..][j].hostname), name);
        assert ls[j + 1] == ls[1..][j];
      }
    }
  }

  lemma {:induction false} MirroringComplete(f: Folding, domain: string, rs: seq<Record>, ls: seq<Lease>, j: nat)
    requires j < |ls|
    ensures var out := Mirroring(f, domain, rs, ls); Full(out) || LeaseTaken(f, domain, out, ls[j])
    decreases |ls|
  {
    hide EqualFold, Fqdn, WithMirror, NameTaken;
    var rs', name := WithMirror(f, domain, rs, ls[0]), Fqdn(domain, ls[j].hostname);
    if j == 0 {
      MirrorStep(f, domain, rs, ls[0], name);
      MirroringNames(f, domain, rs', ls[1..], name);
    } else {
      assert ls[1..][j - 1] == ls[j];
      MirroringComplete(f, domain, rs', ls[1..], j - 1);
    }
  }

  lemma {:induction false} FullStaysFull(f: Folding, domain: string, rs: seq<Record>, ls: seq<Lease>)
    requires Full(rs)
    ensures Mirroring(f, domain, rs, ls) == rs
    decreases |ls|
  {
    if ls != [] { FullStaysFull(f, domain, rs, ls[1..]); }
  }

  /** A record whose name no lease has does not influence the mirroring around it, unless it takes the last
      place from a lease. */
  lemma {:induction false} MirroringAround(f: Folding, domain: string, p: seq<Record>, r: Record, x: seq<Record>, ls: seq<Lease>) returns (x': seq<Record>)
    requires forall j :: 0 <= j < |ls| ==> ls[j].hostname == "" || !EqualFold(f, r.name, Fqdn(domain, ls[j].hostname))
    requires var out := Mirroring(f, domain, p + [r] + x, ls);
             Full(out) ==> forall j :: 0 <= j < |ls| ==> LeaseTaken(f, domain, out, ls[j])
    ensures Mirroring(f, domain, p + [r] + x, ls) == p + [r] + x'
    ensures Mirroring(f, domain, p + x, ls) == p + x'
    decreases |ls|
  {
    hide EqualFold, Fqdn;
    if ls == [] {
      x' := x;
    } else {
      var m, before := MirrorOf(domain, ls[0]), p + [r] + x;
      TakenConcat(f, p + [r], x, m.name);
      TakenConcat(f, p, [r], m.name);
      TakenConcat(f, p, x, m.name);
      assert NameTaken(f, [r], m.name) <==> EqualFold(f, [r][0].name, m.name);
      if ls[0].hostname == "" || NameTaken(f, p + x, m.name) {
        x' := MirroringAround(f, domain, p, r, x, ls[1..]);
      } else {
        assert !Full(before) by {
          if Full(before) { FullStaysFull(f, domain, before, ls); }
        }
        assert before + [m] == p + [r] + (x + [m]);
        assert p + (x + [m]) == p + x + [m];
        x' := MirroringAround(f, domain, p, r, x + [m], ls[1..]);
      }
    }
  }

  lemma {:induction false} NothingToRemove(f: Folding, rs: seq<Record>, name: string)
    requires !NameTaken(f, rs, name)
    ensures WithoutFirst(f, rs, name) == rs
  {
    if rs != [] {
      assert rs == [rs[0]] + rs[1..];
      assert !EqualFold(f, rs[0].name, name);
      assert forall i :: 0 <= i < |rs| - 1 ==> rs[1..][i] == rs[i + 1];
      NothingToRemove(f, rs[1..], name);
    }
  }

  lemma {:induction false} RemovesThere(f: Folding, a: seq<Record>, r: Record, b: seq<Record>, name: string)
    requires !NameTaken(f, a, name) && Owns(f, r, DHCP_STATIC, name)
    ensures WithoutFirst(f, a + [r] + b, name) == a + b
  {
    var c := a + [r] + b;
    if a == [] {
      assert c[1..] == b;
    } else {
      assert c[0] == a[0] && c[1..] == a[1..] + [r] + b;
      assert !EqualFold(f, a[0].name, name);
      assert forall i :: 0 <= i < |a| - 1 ==> a[1..][i] == a[i + 1];
      RemovesThere(f, a[1..], r, b, name);
    }
  }

  /** A lease that adds nothing can be left out of the rebuild. */
  lemma InertLease(f: Folding, domain: string, rs: seq<Record>, ls: seq<Lease>, i: nat)
    requires i < |ls|
    requires WithMirror(f, domain, Mirroring(f, domain, rs, ls[..i]), ls[i]) == Mirroring(f, domain, rs, ls[..i])
    ensures Mirroring(f, domain, rs, Without(ls, i)) == Mirroring(f, domain, rs, ls)
  {
    MirroringFacts(f, domain, rs, ls[..i], ls[i + 1..]);
    MirroringFacts(f, domain, rs, ls[..i], ls[i..]);
    assert ls == ls[..i] + ls[i..] && ls[i..][1..] == ls[i + 1..];
  }

  /** A list in sync has the size and the names of its rebuild. */
  lemma SyncedFacts(f: Folding, domain: string, rs: seq<Record>, ls: seq<Lease>, name: string)
    requires InSync(f, domain, rs, ls)
    ensures var q := Rebuilt(f, domain, rs, ls); |q| == |rs| && (NameTaken(f, q, name) <==> NameTaken(f, rs, name))
    ensures NameTaken(f, Foreign(rs), name) ==> !NameTaken(f, Mirrored(rs), name)
  {
    hide NameTaken, Mirroring;
    RebuildIdempotent(f, domain, rs, ls);
    Partition(f, Rebuilt(f, domain, rs, ls), name);
    Partition(f, rs, name);
    if NameTaken(f, Foreign(rs), name) {
      ForeignIdempotent(rs);
      NobodyTaken(f, name);
      ForeignOwned(f, domain, Foreign(rs), ls, name);
    }
  }

  lemma NobodyTaken(f: Folding, name: string)
    ensures !NameTaken(f, [], name)
  {}

  lemma {:induction false} ForeignOwned(f: Folding, domain: string, rs: seq<Record>, ls: seq<Lease>, name: string)
    requires NameTaken(f, rs, name) && !NameTaken(f, Mirrored(rs), name)
    ensures !NameTaken(f, Mirrored(Mirroring(f, domain, rs, ls)), name)
    decreases |ls|
  {
    if ls != [] {
      var r := MirrorOf(domain, ls[0]);
      var rs' := WithMirror(f, domain, rs, ls[0]);
      Concat(rs, [r]);
      TakenConcat(f, Mirrored(rs), [r], name);
      TakenConcat(f, rs, [r], name);
      assert Mirrored([r]) == [r];
      assert NameTaken(f, [r], name) <==> EqualFold(f, [r][0].name, name);
      if EqualFold(f, r.name, name) { TakenAlike(f, rs, r.name, name); }
      ForeignOwned(f, domain, rs', ls[1..], name);
    }
  }

  /** The rebuild, seen at lease i. */
  lemma RebuildAt(f: Folding, domain: string, base: seq<Record>, ls: seq<Lease>, i: nat)
    requires i < |ls|
    ensures var p := Mirroring(f, domain, base, ls[..i]);
            && Mirroring(f, domain, base, ls) == Mirroring(f, domain, WithMirror(f, domain, p, ls[i]), ls[i + 1..])
            && Mirroring(f, domain, base, Without(ls, i)) == Mirroring(f, domain, p, ls[i + 1..])
  {
    hide Mirroring, WithMirror;
    var p := Mirroring(f, domain, base, ls[..i]);
    MirroringFacts(f, domain, base, ls[..i], ls[i..]);
    MirroringFacts(f, domain, base, ls[..i], ls[i + 1..]);
    assert ls == ls[..i] + ls[i..] && ls[i..][1..] == ls[i + 1..];
    MirroringHead(f, domain, p, ls[i..]);
  }

  lemma MirrorTaken(f: Folding, p: seq<Record>, r: Record, out: seq<Record>)
    requires IsMirror(r) && p + [r] <= out
    ensures NameTaken(f, Mirrored(out), r.name)
  {
    var y, q := out[|p| + 1..], Mirrored(out);
    assert out == p + [r] + y;
    Concat(p + [r], y);
    Concat(p, [r]);
    assert Mirrored([r]) == [r];
    EqualFoldSelf(f, r.name);
    assert q[|Mirrored(p)|] == r;
  }

  /** A lease that is not mirrored adds nothing to the rebuild. */
  lemma UnmirroredInert(f: Folding, domain: string, base: seq<Record>, ls: seq<Lease>, i: nat)
    requires i < |ls| && ls[i].hostname != ""
    requires !NameTaken(f, Mirrored(Mirroring(f, domain, base, ls)), Fqdn(domain, ls[i].hostname))
    ensures WithMirror(f, domain, Mirroring(f, domain, base, ls[..i]), ls[i]) == Mirroring(f, domain, base, ls[..i])
  {
    hide Mirroring, Fqdn;
    var p, r, out := Mirroring(f, domain, base, ls[..i]), MirrorOf(domain, ls[i]), Mirroring(f, domain, base, ls);
    RebuildAt(f, domain, base, ls, i);
    if WithMirror(f, domain, p, ls[i]) != p {
      MirroringNames(f, domain, p + [r], ls[i + 1..], r.name);
      MirrorTaken(f, p, r, out);
    }
  }

  /** The one lease of its hostname, mirrored: nothing else differs between the two rebuilds. */
  lemma SoleHostRebuild(f: Folding, domain: string, base: seq<Record>, ls: seq<Lease>, i: nat) returns (p: seq<Record>, x: seq<Record>)
    requires i < |ls| && ls[i].hostname != "" && !NameTaken(f, base, Fqdn(domain, ls[i].hostname))
    requires var out := Mirroring(f, domain, base, ls);
             && NameTaken(f, out, Fqdn(domain, ls[i].hostname))
             && (Full(out) ==> forall j :: 0 <= j < |ls| ==> LeaseTaken(f, domain, out, ls[j]))
    requires forall j :: 0 <= j < |ls| && j != i ==> !SameHost(f, ls[i], ls[j])
    ensures !NameTaken(f, p, Fqdn(domain, ls[i].hostname))
    ensures Mirroring(f, domain, base, ls) == p + [MirrorOf(domain, ls[i])] + x
    ensures Mirroring(f, domain, base, Without(ls, i)) == p + x
  {
    hide EqualFold, Fqdn, Mirroring, NameTaken, LeaseTaken, Full;
    var name, r, tail, others := Fqdn(domain, ls[i].hostname), MirrorOf(domain, ls[i]), ls[i + 1..], Without(ls, i);
    p := Mirroring(f, domain, base, ls[..i]);
    RebuildAt(f, domain, base, ls, i);
    forall j | 0 <= j < |ls| && j != i && ls[j].hostname != ""
      ensures !EqualFold(f, Fqdn(domain, ls[j].hostname), name) && !EqualFold(f, name, Fqdn(domain, ls[j].hostname))
    {
      assert !SameHost(f, ls[i], ls[j]);
      FqdnFolds(f, domain, ls[i].hostname, ls[j].hostname);
      EqualFoldSymmetric(f, name, Fqdn(domain, ls[j].hostname));
    }
    MirroringNames(f, domain, base, ls[..i], name);
    MirroringNames(f, domain, base, others, name);
    assert forall j :: 0 <= j < |others| ==> others[j] == ls[if j < i then j else j + 1];
    assert WithMirror(f, domain, p, ls[i]) != p;
    assert p + [r] + [] == p + [r] && p + [] == p;
    x := MirroringAround(f, domain, p, r, [], tail);
  }

  lemma MirroringHead(f: Folding, domain: string, rs: seq<Record>, ls: seq<Lease>)
    requires ls != []
    ensures Mirroring(f, domain, rs, ls) == Mirroring(f, domain, WithMirror(f, domain, rs, ls[0]), ls[1..])
  {}

  lemma RemovableInSync(f: Folding, domain: string, rs: seq<Record>, ls: seq<Lease>, i: nat)
    requires i < |ls| && InSync(f, domain, rs, ls) && Removable(f, domain, rs, ls, i)
    ensures Mirrored(AfterRemove(f, domain, rs, ls[i])) == Mirrored(Rebuilt(f, domain, rs, Without(ls, i)))
  {
    hide EqualFold, Fqdn, NameTaken, Mirroring, LeaseTaken, Full;
    var base, name := Foreign(rs), Fqdn(domain, ls[i].hostname);
    WithoutFirstFacts(f, rs, name);
    if ls[i].hostname == "" {
      InertLease(f, domain, base, ls, i);
    } else if !NameTaken(f, Mirrored(rs), name) {
      UnmirroredInert(f, domain, base, ls, i);
      InertLease(f, domain, base, ls, i);
      NothingToRemove(f, Mirrored(rs), name);
    } else {
      SoleHostInSync(f, domain, rs, ls, i);
    }
  }

  lemma SoleHostInSync(f: Folding, domain: string, rs: seq<Record>, ls: seq<Lease>, i: nat)
    requires i < |ls| && InSync(f, domain, rs, ls) && NothingWaits(f, domain, rs, ls, i)
    requires ls[i].hostname != "" && NameTaken(f, Mirrored(rs), Fqdn(domain, ls[i].hostname))
    ensures Mirrored(AfterRemove(f, domain, rs, ls[i])) == Mirrored(Rebuilt(f, domain, rs, Without(ls, i)))
  {
    hide EqualFold, Fqdn, NameTaken, Mirroring;
    var base, name, r := Foreign(rs), Fqdn(domain, ls[i].hostname), MirrorOf(domain, ls[i]);
    SyncedFacts(f, domain, rs, ls, name);
    Partition(f, rs, name);
    forall j | 0 <= j < |ls| && Full(rs) ensures LeaseTaken(f, domain, Rebuilt(f, domain, rs, ls), ls[j]) {
      assert LeaseTaken(f, domain, rs, ls[j]);
      SyncedFacts(f, domain, rs, ls, Fqdn(domain, ls[j].hostname));
    }
    var p, x := SoleHostRebuild(f, domain, base, ls, i);
    WithoutFirstFacts(f, rs, name);
    Concat(p + [r], x);
    Concat(p, [r]);
    Concat(p, x);
    assert Mirrored([r]) == [r];
    Partition(f, p, name);
    EqualFoldSelf(f, r.name);
    RemovesThere(f, Mirrored(p), r, Mirrored(x), name);
  }

  /** Mirrored names are unique, so one removal leaves none of that name. */
  ghost predicate UniqueNames(f: Folding, rs: seq<Record>) {
    forall i, j :: 0 <= i < j < |rs| ==> !EqualFold(f, rs[i].name, rs[j].name)
  }

  lemma {:induction false} MirroringUnique(f: Folding, domain: string, rs: seq<Record>, ls: seq<Lease>)
    requires UniqueNames(f, Mirrored(rs))
    ensures UniqueNames(f, Mirrored(Mirroring(f, domain, rs, ls)))
    decreases |ls|
  {
    if ls != [] {
      var r := MirrorOf(domain, ls[0]);
      Concat(rs, [r]);
      Partition(f, rs, r.name);
      assert Mirrored([r]) == [r];
      MirroringUnique(f, domain, WithMirror(f, domain, rs, ls[0]), ls[1..]);
    }
  }

  lemma {:induction false} RemovedGone(f: Folding, rs: seq<Record>, name: string)
    requires UniqueNames(f, rs) && forall i :: 0 <= i < |rs| ==> rs[i].source == DHCP_STATIC
    ensures !NameTaken(f, WithoutFirst(f, rs, name), name)
  {
    if rs != [] {
      assert forall i :: 0 <= i < |rs| - 1 ==> rs[1..][i] == rs[i + 1];
      RemovedGone(f, rs[1..], name);
      if Owns(f, rs[0], DHCP_STATIC, name) {
        assert forall i :: 0 < i < |rs| ==> !EqualFold(f, rs[0].name, rs[i].name);
      } else {
        TakenConcat(f, [rs[0]], WithoutFirst(f, rs[1..], name), name);
      }
    }
  }

  lemma {:induction false} MirroredSources(rs: seq<Record>)
    ensures forall i :: 0 <= i < |Mirrored(rs)| ==> Mirrored(rs)[i].source == DHCP_STATIC
  {
    if rs != [] { MirroredSources(rs[1..]); }
  }

  lemma {:induction false} WithoutFirstShrinks(f: Folding, rs: seq<Record>, name: string, other: string)
    requires NameTaken(f, rs, name) && forall i :: 0 <= i < |rs| ==> rs[i].source == DHCP_STATIC
    ensures |WithoutFirst(f, rs, name)| == |rs| - 1
    ensures NameTaken(f, WithoutFirst(f, rs, name), other) ==> NameTaken(f, rs, other)
  {
    FirstTaken(f, rs, name);
    hide EqualFold, NameTaken;
    var head, tail := [rs[0]], rs[1..];
    assert rs == head + tail;
    TakenConcat(f, head, tail, other);
    TakenConcat(f, head, tail, name);
    if !Owns(f, rs[0], DHCP_STATIC, name) {
      assert forall i :: 0 <= i < |tail| ==> tail[i] == rs[i + 1];
      WithoutFirstShrinks(f, tail, name, other);
      TakenConcat(f, head, WithoutFirst(f, tail, name), other);
    }
  }

  lemma FirstTaken(f: Folding, rs: seq<Record>, name: string)
    requires NameTaken(f, rs, name)
    ensures rs != [] && (NameTaken(f, [rs[0]], name) <==> EqualFold(f, rs[0].name, name))
  {
    hide EqualFold;
    assert [rs[0]][0] == rs[0];
  }

  /** What a list in sync again would have to contain: with the record gone there is a free place, so the
      name of every remaining lease, and yet no mirrored record but the old ones less the removed. */
  lemma WouldBeTaken(f: Folding, domain: string, rs: seq<Record>, ls: seq<Lease>, i: nat, j: nat)
    requires i < |ls| && j < |ls| && i != j && ls[j].hostname != "" && InSync(f, domain, rs, ls)
    requires ls[i].hostname != "" && NameTaken(f, Mirrored(rs), Fqdn(domain, ls[i].hostname))
    requires InSync(f, domain, AfterRemove(f, domain, rs, ls[i]), Without(ls, i))
    ensures var name, other := Fqdn(domain, ls[i].hostname), Fqdn(domain, ls[j].hostname);
            NameTaken(f, Foreign(rs), other) || NameTaken(f, WithoutFirst(f, Mirrored(rs), name), other)
  {
    hide EqualFold, Fqdn, NameTaken, Mirroring, WithoutFirst;
    var name, other, others := Fqdn(domain, ls[i].hostname), Fqdn(domain, ls[j].hostname), Without(ls, i);
    var kept := WithoutFirst(f, Mirrored(rs), name);
    WithoutFirstFacts(f, rs, name);
    MirroredSources(rs);
    WithoutFirstShrinks(f, Mirrored(rs), name, other);
    SyncedFacts(f, domain, rs, ls, name);
    MirroringNames(f, domain, Foreign(rs), ls, name);
    Partition(f, rs, name);
    RebuildIdempotent(f, domain, rs, others);
    var w := Rebuilt(f, domain, rs, others);
    Partition(f, w, other);
    assert others[if j < i then j else j - 1] == ls[j];
    MirroringComplete(f, domain, Foreign(rs), others, if j < i then j else j - 1);
  }

  lemma WaitingOutOfSync(f: Folding, domain: string, rs: seq<Record>, ls: seq<Lease>, i: nat)
    requires i < |ls| && InSync(f, domain, rs, ls) && !Removable(f, domain, rs, ls, i)
    ensures !InSync(f, domain, AfterRemove(f, domain, rs, ls[i]), Without(ls, i))
  {
    hide EqualFold, Fqdn, NameTaken, WithoutFirst, Mirroring, InSync;
    var name := Fqdn(domain, ls[i].hostname);
    SyncedFacts(f, domain, rs, ls, name);
    MirroredSources(rs);
    if InSync(f, domain, AfterRemove(f, domain, rs, ls[i]), Without(ls, i)) {
      if j :| 0 <= j < |ls| && j != i && SameHost(f, ls[i], ls[j]) {
        var other := Fqdn(domain, ls[j].hostname);
        FqdnFolds(f, domain, ls[i].hostname, ls[j].hostname);
        WouldBeTaken(f, domain, rs, ls, i, j);
        MirrorsUnique(f, domain, rs, ls);
        RemovedGone(f, Mirrored(rs), name);
        if NameTaken(f, Foreign(rs), other) {
          TakenAlike(f, Foreign(rs), name, other);
        } else {
          TakenAlike(f, WithoutFirst(f, Mirrored(rs), name), name, other);
        }
      } else {
        Partition(f, rs, name);
        var j :| 0 <= j < |ls| && !LeaseTaken(f, domain, rs, ls[j]);
        var other := Fqdn(domain, ls[j].hostname);
        WouldBeTaken(f, domain, rs, ls, i, j);
        WithoutFirstShrinks(f, Mirrored(rs), name, other);
        Partition(f, rs, other);
      }
    }
  }

  lemma MirrorsUnique(f: Folding, domain: string, rs: seq<Record>, ls: seq<Lease>)
    requires InSync(f, domain, rs, ls)
    ensures UniqueNames(f, Mirrored(rs))
  {
    ForeignIdempotent(rs);
    MirroringUnique(f, domain, Foreign(rs), ls);
  }

  /** Removing a lease keeps the list in sync exactly when the lease is removable, however full the list. */
  lemma RemoveKeepsSyncIff(f: Folding, domain: string, rs: seq<Record>, ls: seq<Lease>, i: nat)
    requires i < |ls| && InSync(f, domain, rs, ls)
    ensures Foreign(AfterRemove(f, domain, rs, ls[i])) == Foreign(rs)
    ensures InSync(f, domain, AfterRemove(f, domain, rs, ls[i]), Without(ls, i)) <==> Removable(f, domain, rs, ls, i)
  {
    WithoutFirstFacts(f, rs, Fqdn(domain, ls[i].hostname));
    hide Removable, WithoutFirst, Mirroring;
    if Removable(f, domain, rs, ls, i) {
      RemovableInSync(f, domain, rs, ls, i);
    } else {
      WaitingOutOfSync(f, domain, rs, ls, i);
    }
  }

  /** Two leases of one hostname: only the first is mirrored, and removing the second takes that record away. */
  lemma SharedHostBreaks()
    ensures var f, first, second := c => c, Lease("m1", "10.0.0.1", "nas"), Lease("m2", "10.0.0.2", "nas");
            var rs := Rebuilt(f, "lan", [], [first, second]);
            && InSync(f, "lan", rs, [first, second]) && rs == [MirrorOf("lan", first)]
            && AfterRemove(f, "lan", rs, second) == [] && !InSync(f, "lan", [], [first])
  {
    var f: Folding, first, second := c => c, Lease("m1", "10.0.0.1", "nas"), Lease("m2", "10.0.0.2", "nas");
    var r := MirrorOf("lan", first);
    RebuildIdempotent(f, "lan", [], [first, second]);
    NobodyTaken(f, r.name);
    EqualFoldSelf(f, r.name);
    assert [] + [r] == [r] && [r][0] == r;
    assert NameTaken(f, [r], r.name);
    hide NameTaken, EqualFold, Fqdn;
    assert WithMirror(f, "lan", [], first) == [r] && WithMirror(f, "lan", [r], second) == [r];
    assert [first, second][1..] == [second] && [second][1..] == [] && [first][1..] == [];
    MirroringHead(f, "lan", [], [first, second]);
    MirroringHead(f, "lan", [r], [second]);
    MirroringHead(f, "lan", [], [first]);
    assert Mirroring(f, "lan", [r], []) == [r];
    RemovesThere(f, [], r, [], r.name);
    assert [] + [r] + [] == [r] && Mirrored([r]) == [r];
  }

  /** Distinct hostnames are not enough either: in a list filled up by other records, removing a mirrored lease
      frees a place that only a rebuild hands to the lease that was left out. */
  lemma FullListBreaks(f: Folding, domain: string, base: seq<Record>, a: Lease, b: Lease)
    requires |base| == MAX_STATIC_RECORDS - 1 && Foreign(base) == base
    requires a.hostname != "" && b.hostname != "" && !SameHost(f, a, b)
    requires !NameTaken(f, base, Fqdn(domain, a.hostname)) && !NameTaken(f, base, Fqdn(domain, b.hostname))
    ensures var rs := Rebuilt(f, domain, base, [a, b]);
            InSync(f, domain, rs, [a, b]) && !InSync(f, domain, AfterRemove(f, domain, rs, a), Without([a, b], 0))
  {
    hide EqualFold, Fqdn, NameTaken, InSync;
    var ls, r, other := [a, b], MirrorOf(domain, a), Fqdn(domain, b.hostname);
    var rs := Rebuilt(f, domain, base, ls);
    RebuildIdempotent(f, domain, base, ls);
    assert ls[1..] == [b] && [b][1..] == [];
    assert WithMirror(f, domain, base, a) == base + [r];
    FullStaysFull(f, domain, base + [r], [b]);
    assert rs == base + [r];
    TakenConcat(f, base, [r], other);
    OnlyName(f, r, other);
    FqdnFolds(f, domain, a.hostname, b.hostname);
    MirrorTaken(f, base, r, rs);
    assert !LeaseTaken(f, domain, rs, ls[1]);
    RemoveKeepsSyncIff(f, domain, rs, ls, 0);
  }

  lemma OnlyName(f: Folding, r: Record, name: string)
    ensures NameTaken(f, [r], name) <==> EqualFold(f, r.name, name)
  {
    assert [r][0] == r;
  }

  // ---------- Removal without a save ----------

  /** The lease is mirrored and no earlier one has its hostname, so the record is its own. */
  ghost predicate OwnsRecord(f: Folding, domain: string, rs: seq<Record>, ls: seq<Lease>, i: nat)
    requires i < |ls|
  {
    && ls[i].hostname != "" && NameTaken(f, Mirrored(rs), Fqdn(domain, ls[i].hostname))
    && forall k :: 0 <= k < i ==> !SameHost(f, ls[k], ls[i])
  }

  /** A lease that adds nothing to what the leases before `i` and the other sources have. */
  ghost predicate Idle(f: Folding, domain: string, base: seq<Record>, ls: seq<Lease>, i: nat, l: Lease)
    requires i <= |ls|
  {
    LeaseTaken(f, domain, base, l) || exists k :: 0 <= k < i && SameHost(f, ls[k], l)
  }

  /** A later lease has the same hostname and address, and all leases in between add nothing. */
  ghost predicate TakenOver(f: Folding, domain: string, base: seq<Record>, ls: seq<Lease>, i: nat)
    requires i < |ls|
  {
    exists j :: i < j < |ls| && Twin(ls[i], ls[j]) && forall k :: i < k < j ==> Idle(f, domain, base, ls, i, ls[k])
  }

  predicate Twin(a: Lease, b: Lease) { a.hostname == b.hostname && a.ip == b.ip }

  /** What is taken once the leases before `i` are mirrored with room to spare. */
  lemma TakenBefore(f: Folding, domain: string, base: seq<Record>, ls: seq<Lease>, i: nat, l: Lease)
    requires i <= |ls| && !Full(Mirroring(f, domain, base, ls[..i]))
    ensures LeaseTaken(f, domain, Mirroring(f, domain, base, ls[..i]), l) <==> Idle(f, domain, base, ls, i, l)
  {
    hide EqualFold, Fqdn, NameTaken, Mirroring, Full;
    var front, name, p := ls[..i], Fqdn(domain, l.hostname), Mirroring(f, domain, base, ls[..i]);
    MirroringNames(f, domain, base, front, name);
    if l.hostname != "" {
      if NameTaken(f, p, name) && !NameTaken(f, base, name) {
        var k :| 0 <= k < |front| && front[k].hostname != "" && EqualFold(f, Fqdn(domain, front[k].hostname), name);
        FqdnFolds(f, domain, front[k].hostname, l.hostname);
        assert front[k] == ls[k];
      }
      if k :| 0 <= k < i && SameHost(f, ls[k], l) {
        assert front[k] == ls[k];
        MirroringComplete(f, domain, base, front, k);
        FqdnFolds(f, domain, ls[k].hostname, l.hostname);
        EqualFoldSymmetric(f, name, Fqdn(domain, ls[k].hostname));
        TakenAlike(f, p, name, Fqdn(domain, ls[k].hostname));
      }
    }
  }

  /** Mirroring with and without `r` comes to the same exactly when the next lease to add anything adds `r`. */
  lemma {:induction false} TailAgrees(f: Folding, domain: string, p: seq<Record>, r: Record, tail: seq<Lease>)
    requires !Full(p) && !NameTaken(f, p, r.name)
    ensures Mirroring(f, domain, p, tail) == Mirroring(f, domain, p + [r], tail) <==> NextAdds(f, domain, p, r, tail)
    decreases |tail|
  {
    hide EqualFold, Fqdn, NameTaken;
    if tail != [] {
      var l, rest := tail[0], tail[1..];
      var m := MirrorOf(domain, l);
      assert forall k :: 0 <= k < |rest| ==> rest[k] == tail[k + 1];
      TakenConcat(f, p, [r], m.name);
      NextAddsCons(f, domain, p, r, tail);
      if LeaseTaken(f, domain, p, l) {
        TailAgrees(f, domain, p, r, rest);
      } else if m == r {
        OnlyName(f, r, m.name);
        EqualFoldSelf(f, m.name);
      } else {
        Extends(f, domain, p + [m], rest);
        Extends(f, domain, WithMirror(f, domain, p + [r], l), rest);
        assert Mirroring(f, domain, p, tail)[|p|] == m && Mirroring(f, domain, p + [r], tail)[|p|] == r;
      }
    }
  }

  lemma Extends(f: Folding, domain: string, rs: seq<Record>, ls: seq<Lease>)
    ensures rs <= Mirroring(f, domain, rs, ls)
  {
    MirroringNames(f, domain, rs, ls, "");
  }

  ghost predicate NextAdds(f: Folding, domain: string, p: seq<Record>, r: Record, tail: seq<Lease>) {
    exists j :: 0 <= j < |tail| && tail[j].hostname != "" && MirrorOf(domain, tail[j]) == r
                && forall k :: 0 <= k < j ==> LeaseTaken(f, domain, p, tail[k])
  }

  lemma NextAddsCons(f: Folding, domain: string, p: seq<Record>, r: Record, tail: seq<Lease>)
    requires tail != [] && !NameTaken(f, p, r.name)
    ensures NextAdds(f, domain, p, r, tail) <==>
            if LeaseTaken(f, domain, p, tail[0]) then NextAdds(f, domain, p, r, tail[1..]) else MirrorOf(domain, tail[0]) == r
  {
    hide NameTaken, Fqdn;
    var rest := tail[1..];
    assert forall k :: 0 <= k < |rest| ==> rest[k] == tail[k + 1];
    if NextAdds(f, domain, p, r, tail) && LeaseTaken(f, domain, p, tail[0]) {
      var j :| 0 <= j < |tail| && tail[j].hostname != "" && MirrorOf(domain, tail[j]) == r
               && forall k :: 0 <= k < j ==> LeaseTaken(f, domain, p, tail[k]);
      assert rest[j - 1] == tail[j];
    }
    if NextAdds(f, domain, p, r, rest) && LeaseTaken(f, domain, p, tail[0]) {
      var j :| 0 <= j < |rest| && rest[j].hostname != "" && MirrorOf(domain, rest[j]) == r
               && forall k :: 0 <= k < j ==> LeaseTaken(f, domain, p, rest[k]);
      forall k | 0 <= k < j + 1 ensures LeaseTaken(f, domain, p, tail[k]) { if k > 0 { assert rest[k - 1] == tail[k]; } }
      assert tail[j + 1] == rest[j];
    }
  }

  lemma TwinMirror(domain: string, a: Lease, b: Lease)
    ensures MirrorOf(domain, a) == MirrorOf(domain, b) <==> Twin(a, b)
  {
    var x, y := Fqdn(domain, a.hostname), Fqdn(domain, b.hostname);
    if x == y {
      assert |a.hostname| == |b.hostname|;
      assert a.hostname == x[..|a.hostname|] && b.hostname == y[..|b.hostname|];
    }
  }

  lemma TakeoverIff(f: Folding, domain: string, base: seq<Record>, ls: seq<Lease>, i: nat)
    requires i < |ls| && ls[i].hostname != "" && !Full(Mirroring(f, domain, base, ls[..i]))
    ensures NextAdds(f, domain, Mirroring(f, domain, base, ls[..i]), MirrorOf(domain, ls[i]), ls[i + 1..]) <==> TakenOver(f, domain, base, ls, i)
  {
    hide Mirroring, LeaseTaken, Idle, Full, MirrorOf;
    var p, r, tail := Mirroring(f, domain, base, ls[..i]), MirrorOf(domain, ls[i]), ls[i + 1..];
    forall k | 0 <= k < |tail| ensures tail[k] == ls[i + 1 + k] {}
    forall k | i < k < |ls|
      ensures ls[k] == tail[k - i - 1] && (LeaseTaken(f, domain, p, ls[k]) <==> Idle(f, domain, base, ls, i, ls[k]))
      ensures MirrorOf(domain, ls[k]) == r <==> Twin(ls[i], ls[k])
    {
      TakenBefore(f, domain, base, ls, i, ls[k]);
      TwinMirror(domain, ls[i], ls[k]);
    }
    if NextAdds(f, domain, p, r, tail) {
      var j :| 0 <= j < |tail| && tail[j].hostname != "" && MirrorOf(domain, tail[j]) == r
               && forall k :: 0 <= k < j ==> LeaseTaken(f, domain, p, tail[k]);
      assert Twin(ls[i], ls[i + 1 + j]);
      forall k | i < k < i + 1 + j ensures Idle(f, domain, base, ls, i, ls[k]) { assert LeaseTaken(f, domain, p, tail[k - i - 1]); }
    }
    if TakenOver(f, domain, base, ls, i) {
      var j :| i < j < |ls| && Twin(ls[i], ls[j]) && forall k :: i < k < j ==> Idle(f, domain, base, ls, i, ls[k]);
      var n := j - i - 1;
      assert tail[n] == ls[j];
      forall k | 0 <= k < n ensures LeaseTaken(f, domain, p, tail[k]) { assert Idle(f, domain, base, ls, i, ls[i + 1 + k]); }
    }
  }

  /** A lease with its own record was the one that added it. */
  lemma OwnerAdds(f: Folding, domain: string, rs: seq<Record>, ls: seq<Lease>, i: nat)
    requires i < |ls| && InSync(f, domain, rs, ls) && OwnsRecord(f, domain, rs, ls, i)
    ensures var p := Mirroring(f, domain, Foreign(rs), ls[..i]);
            !Full(p) && !NameTaken(f, p, Fqdn(domain, ls[i].hostname))
  {
    hide EqualFold, Fqdn, NameTaken, Mirroring, Full;
    var base, name, front := Foreign(rs), Fqdn(domain, ls[i].hostname), ls[..i];
    var p := Mirroring(f, domain, base, front);
    SyncedFacts(f, domain, rs, ls, name);
    MirroringNames(f, domain, base, front, name);
    forall k | 0 <= k < |front| && front[k].hostname != "" ensures !EqualFold(f, Fqdn(domain, front[k].hostname), name) {
      assert !SameHost(f, ls[k], ls[i]);
      FqdnFolds(f, domain, front[k].hostname, ls[i].hostname);
    }
    if Full(p) {
      MirroringFacts(f, domain, base, front, ls[i..]);
      assert ls == front + ls[i..];
      FullStaysFull(f, domain, p, ls[i..]);
      Partition(f, rs, name);
    }
  }

  /** Any other lease adds nothing. */
  lemma OthersInert(f: Folding, domain: string, rs: seq<Record>, ls: seq<Lease>, i: nat)
    requires i < |ls| && InSync(f, domain, rs, ls) && !OwnsRecord(f, domain, rs, ls, i)
    ensures Rebuilt(f, domain, rs, Without(ls, i)) == Rebuilt(f, domain, rs, ls)
  {
    hide EqualFold, Fqdn, NameTaken, Mirroring;
    var base, p := Foreign(rs), Mirroring(f, domain, Foreign(rs), ls[..i]);
    if ls[i].hostname != "" && !NameTaken(f, Mirrored(rs), Fqdn(domain, ls[i].hostname)) {
      UnmirroredInert(f, domain, base, ls, i);
    } else if ls[i].hostname != "" && !Full(p) {
      TakenBefore(f, domain, base, ls, i, ls[i]);
    }
    InertLease(f, domain, base, ls, i);
  }

  /** A removal whose save fails keeps the record: in sync exactly when the record was not the lease's own, or
      a twin takes its place in the rebuild. */
  lemma UnsavedRemoveInSyncIff(f: Folding, domain: string, rs: seq<Record>, ls: seq<Lease>, i: nat)
    requires i < |ls| && InSync(f, domain, rs, ls)
    ensures InSync(f, domain, rs, Without(ls, i)) <==>
            OwnsRecord(f, domain, rs, ls, i) ==> TakenOver(f, domain, Foreign(rs), ls, i)
  {
    hide NameTaken, Fqdn, Mirroring, EqualFold, Full, TakenOver;
    var base := Foreign(rs);
    if OwnsRecord(f, domain, rs, ls, i) {
      var p, r := Mirroring(f, domain, base, ls[..i]), MirrorOf(domain, ls[i]);
      OwnerAdds(f, domain, rs, ls, i);
      RebuildAt(f, domain, base, ls, i);
      FreshMirror(f, domain, p, ls[i]);
      TailAgrees(f, domain, p, r, ls[i + 1..]);
      TakeoverIff(f, domain, base, ls, i);
      SameMirrors(f, domain, rs, ls, Without(ls, i));
    } else {
      OthersInert(f, domain, rs, ls, i);
    }
  }

  /** A single mirrored lease, removed without a save: its record stays. */
  lemma UnsavedRemoveBreaks(f: Folding, domain: string, l: Lease)
    requires l.hostname != ""
    ensures InSync(f, domain, [MirrorOf(domain, l)], [l]) && !InSync(f, domain, [MirrorOf(domain, l)], Without([l], 0))
  {
    var r := MirrorOf(domain, l);
    NobodyTaken(f, r.name);
    FreshMirror(f, domain, [], l);
    assert [l][1..] == [] && [] + [r] == [r] && Without([l], 0) == [] && [r][1..] == [];
    assert Mirrored([r]) == [r] && Foreign([r]) == [];
    assert Mirroring(f, domain, [r], []) == [r];
    hide NameTaken, WithMirror;
    MirroringHead(f, domain, [], [l]);
  }

  lemma FreshMirror(f: Folding, domain: string, p: seq<Record>, l: Lease)
    requires l.hostname != "" && !Full(p) && !NameTaken(f, p, Fqdn(domain, l.hostname))
    ensures WithMirror(f, domain, p, l) == p + [MirrorOf(domain, l)]
  {}

  /** Two rebuilds of one list are the same as soon as their mirrored records are. */
  lemma SameMirrors(f: Folding, domain: string, rs: seq<Record>, a: seq<Lease>, b: seq<Lease>)
    ensures Mirrored(Rebuilt(f, domain, rs, a)) == Mirrored(Rebuilt(f, domain, rs, b)) <==> Rebuilt(f, domain, rs, a) == Rebuilt(f, domain, rs, b)
  {
    hide Mirroring;
    ForeignIdempotent(rs);
    var x := BaseThenMirrors(f, domain, Foreign(rs), a);
    var y := BaseThenMirrors(f, domain, Foreign(rs), b);
    assert [] + x == x && [] + y == y;
  }

  lemma {:induction false} BaseThenMirrors(f: Folding, domain: string, base: seq<Record>, ls: seq<Lease>) returns (x: seq<Record>)
    ensures Mirroring(f, domain, base, ls) == base + x
    ensures Mirrored(Mirroring(f, domain, base, ls)) == Mirrored(base) + x
    decreases |ls|
  {
    hide Mirrored, WithMirror;
    if ls == [] {
      x := [];
    } else {
      var r, next := MirrorOf(domain, ls[0]), WithMirror(f, domain, base, ls[0]);
      x := BaseThenMirrors(f, domain, next, ls[1..]);
      MirrorOrNot(f, domain, base, ls[0]);
      if next != base {
        assert base + [r] + x == base + ([r] + x) && Mirrored(base) + [r] + x == Mirrored(base) + ([r] + x);
        x := [r] + x;
      }
    }
  }

  lemma MirrorOrNot(f: Folding, domain: string, rs: seq<Record>, l: Lease)
    ensures var r, next := MirrorOf(domain, l), WithMirror(f, domain, rs, l);
            next == rs || (next == rs + [r] && Mirrored(next) == Mirrored(rs) + [r])
  {
    var r := MirrorOf(domain, l);
    Concat(rs, [r]);
    assert Mirrored([r]) == [r];
  }

  // ---------- What a rebuild contains ----------

  /** Lease i is mirrored: it names a host that no other source and no earlier lease has. */
  ghost predicate GetsRecord(f: Folding, domain: string, base: seq<Record>, ls: seq<Lease>, i: nat)
    requires i < |ls|
  {
    && ls[i].hostname != "" && !NameTaken(f, base, ls[i].hostname + "." + (if domain == "" then "lan" else domain))
    && forall k :: 0 <= k < i ==> !SameHost(f, ls[k], ls[i])
  }

  function RecordFor(domain: string, l: Lease): Record {
    Record(l.hostname + "." + (if domain == "" then "lan" else domain), l.ip, "dhcp-static", false, false)
  }

  ghost predicate IsRecordOf(f: Folding, domain: string, base: seq<Record>, ls: seq<Lease>, i: nat, r: Record)
    requires i < |ls|
  {
    GetsRecord(f, domain, base, ls, i) && r == RecordFor(domain, ls[i])
  }

  lemma {:induction false} RebuildHas(f: Folding, domain: string, base: seq<Record>, ls: seq<Lease>, r: Record)
    requires Mirrored(base) == [] && |base| + |ls| <= MAX_STATIC_RECORDS
    ensures |Mirroring(f, domain, base, ls)| <= |base| + |ls|
    ensures r in Mirrored(Mirroring(f, domain, base, ls)) <==> exists i :: 0 <= i < |ls| && IsRecordOf(f, domain, base, ls, i, r)
    decreases |ls|
  {
    hide NameTaken, Mirrored, WithMirror, Fqdn, SameHost;
    if ls == [] {
      assert Mirroring(f, domain, base, ls) == base;
    } else {
      var n := |ls| - 1;
      var init, l := ls[..n], ls[n];
      var p := Mirroring(f, domain, base, init);
      assert ls == init + [l] && [l][1..] == [];
      RebuildHas(f, domain, base, init, r);
      MirroringFacts(f, domain, base, init, [l]);
      assert Mirroring(f, domain, base, ls) == WithMirror(f, domain, p, l);
      hide Mirroring;
      LastMirrored(f, domain, base, ls);
      forall i | 0 <= i < n ensures IsRecordOf(f, domain, base, ls, i, r) <==> IsRecordOf(f, domain, base, init, i, r) {
        assert forall k :: 0 <= k <= i ==> ls[k] == init[k];
      }
      if r in Mirrored(p) {
        var i :| 0 <= i < n && IsRecordOf(f, domain, base, init, i, r);
        assert IsRecordOf(f, domain, base, ls, i, r);
      } else if GetsRecord(f, domain, base, ls, n) && r == RecordFor(domain, l) {
        assert IsRecordOf(f, domain, base, ls, n, r);
      }
      if i :| 0 <= i < |ls| && IsRecordOf(f, domain, base, ls, i, r) {
        assert i < n ==> IsRecordOf(f, domain, base, init, i, r);
      }
    }
  }

  /** The last lease gets a record exactly when it is due one. */
  lemma LastMirrored(f: Folding, domain: string, base: seq<Record>, ls: seq<Lease>)
    requires ls != [] && |Mirroring(f, domain, base, ls[..|ls| - 1])| < MAX_STATIC_RECORDS
    ensures var n := |ls| - 1;
            var p := Mirroring(f, domain, base, ls[..n]);
            var next := WithMirror(f, domain, p, ls[n]);
            && |next| <= |p| + 1
            && Mirrored(next) == Mirrored(p) + (if GetsRecord(f, domain, base, ls, n) then [RecordFor(domain, ls[n])] else [])
  {
    hide NameTaken, Mirroring, SameHost;
    var n := |ls| - 1;
    var p, l := Mirroring(f, domain, base, ls[..n]), ls[n];
    TakenBefore(f, domain, base, ls, n, l);
    MirrorOrNot(f, domain, p, l);
    if !LeaseTaken(f, domain, p, l) { FreshMirror(f, domain, p, l); }
  }

  /** With room for every lease the mirrored records are exactly those of the leases that name a host nobody
      else has: hostname.domain, or hostname.lan without a domain, at the lease's address. */
  lemma RebuildContents(f: Folding, domain: string, rs: seq<Record>, ls: seq<Lease>, r: Record)
    requires |Foreign(rs)| + |ls| <= MAX_STATIC_RECORDS
    ensures r in Mirrored(Rebuilt(f, domain, rs, ls)) <==> exists i :: 0 <= i < |ls| && IsRecordOf(f, domain, Foreign(rs), ls, i, r)
  {
    ForeignIdempotent(rs);
    RebuildHas(f, domain, Foreign(rs), ls, r);
  }

  // ---------- Runs ----------

  /** A lease operation and whether its save succeeds; a Sync, or one whose strip fails at the n-th save. */
  datatype Op = AddLease(lease: Lease, saved: bool) | RemoveLease(index: int, saved: bool) | Sync(failsAt: Option<nat>)
  datatype Store = Store(records: seq<Record>, leases: seq<Lease>)

  predicate Reserved(f: Folding, ls: seq<Lease>, mac: string, ip: string) {
    exists i :: 0 <= i < |ls| && (EqualFold(f, ls[i].mac, mac) || ls[i].ip == ip)
  }

  /** Without the first mirrored record. */
  function DropMirror(rs: seq<Record>): seq<Record> {
    if rs == [] then [] else if IsMirror(rs[0]) then rs[1..] else [rs[0]] + DropMirror(rs[1..])
  }

  function Stripped(rs: seq<Record>, k: nat): seq<Record> { if k == 0 then rs else DropMirror(Stripped(rs, k - 1)) }

  predicate StripFails(rs: seq<Record>, failsAt: Option<nat>) { failsAt.Some? && failsAt.value < |Mirrored(rs)| }

  function Perform(f: Folding, domain: string, s: Store, op: Op): Store {
    match op
    case AddLease(l, saved) =>
      if Reserved(f, s.leases, l.mac, l.ip) then s
      else Store(if saved then WithMirror(f, domain, s.records, l) else s.records, s.leases + [l])
    case RemoveLease(i, saved) =>
      if 0 <= i < |s.leases|
      then Store(if saved then AfterRemove(f, domain, s.records, s.leases[i]) else s.records, Without(s.leases, i))
      else s
    case Sync(failsAt) =>
      s.(records := if StripFails(s.records, failsAt) then Stripped(s.records, failsAt.value + 1) else Rebuilt(f, domain, s.records, s.leases))
  }

  function PerformAll(f: Folding, domain: string, s: Store, ops: seq<Op>): Store
    decreases |ops|
  {
    if ops == [] then s else PerformAll(f, domain, Perform(f, domain, s, ops[0]), ops[1..])
  }

  ghost predicate Agrees(f: Folding, domain: string, s: Store) { InSync(f, domain, s.records, s.leases) }

  lemma {:induction false} DropFacts(rs: seq<Record>)
    ensures Foreign(DropMirror(rs)) == Foreign(rs)
    ensures Mirrored(DropMirror(rs)) == if Mirrored(rs) == [] then [] else Mirrored(rs)[1..]
  {
    hide IsMirror;
    if rs != [] {
      DropFacts(rs[1..]);
      if !IsMirror(rs[0]) {
        assert ([rs[0]] + DropMirror(rs[1..]))[1..] == DropMirror(rs[1..]);
      }
    }
  }

  lemma {:induction false} StripFacts(rs: seq<Record>, k: nat)
    ensures Foreign(Stripped(rs, k)) == Foreign(rs)
    ensures k <= |Mirrored(rs)| ==> |Mirrored(Stripped(rs, k))| == |Mirrored(rs)| - k
  {
    if k > 0 {
      StripFacts(rs, k - 1);
      DropFacts(Stripped(rs, k - 1));
    }
  }

  /** The exact condition under which one operation keeps a list in sync. */
  ghost predicate Harmless(f: Folding, domain: string, s: Store, op: Op) {
    match op
    case AddLease(l, saved) =>
      saved || Reserved(f, s.leases, l.mac, l.ip) || Full(s.records) || LeaseTaken(f, domain, s.records, l)
    case RemoveLease(i, saved) =>
      0 <= i < |s.leases| ==>
        if saved then Removable(f, domain, s.records, s.leases, i)
        else OwnsRecord(f, domain, s.records, s.leases, i) ==> TakenOver(f, domain, Foreign(s.records), s.leases, i)
    case Sync(failsAt) => !StripFails(s.records, failsAt)
  }

  lemma StepKeepsSyncIff(f: Folding, domain: string, s: Store, op: Op)
    requires Agrees(f, domain, s)
    ensures Agrees(f, domain, Perform(f, domain, s, op)) <==> Harmless(f, domain, s, op)
  {
    hide Removable, OwnsRecord, TakenOver, LeaseTaken, Full, WithMirror, WithoutFirst, Reserved, Mirroring, Mirrored, Stripped;
    match op
    case AddLease(l, saved) =>
      AddKeepsSync(f, domain, s.records, s.leases, l);
      UnsavedAddInSyncIff(f, domain, s.records, s.leases, l);
    case RemoveLease(i, saved) =>
      if 0 <= i < |s.leases| {
        RemoveKeepsSyncIff(f, domain, s.records, s.leases, i);
        UnsavedRemoveInSyncIff(f, domain, s.records, s.leases, i);
      }
    case Sync(failsAt) =>
      RebuildIdempotent(f, domain, s.records, s.leases);
      if StripFails(s.records, failsAt) { StripFacts(s.records, failsAt.value + 1); }
  }

  /** Every operation of the run is harmless where it happens. */
  ghost predicate Careful(f: Folding, domain: string, s: Store, ops: seq<Op>)
    decreases |ops|
  {
    ops != [] ==> Harmless(f, domain, s, ops[0]) && Careful(f, domain, Perform(f, domain, s, ops[0]), ops[1..])
  }

  lemma {:induction false} RunStaysInSync(f: Folding, domain: string, s: Store, ops: seq<Op>)
    requires Agrees(f, domain, s) && Careful(f, domain, s, ops)
    ensures Agrees(f, domain, PerformAll(f, domain, s, ops))
    decreases |ops|
  {
    hide Agrees, Harmless, Perform;
    if ops != [] {
      StepKeepsSyncIff(f, domain, s, ops[0]);
      RunStaysInSync(f, domain, Perform(f, domain, s, ops[0]), ops[1..]);
    }
  }

  lemma {:induction false} PerformConcat(f: Folding, domain: string, s: Store, a: seq<Op>, b: seq<Op>)
    ensures PerformAll(f, domain, s, a + b) == PerformAll(f, domain, PerformAll(f, domain, s, a), b)
    decreases |a|
  {
    hide Perform;
    if a == [] {
      assert a + b == b;
    } else {
      assert (a + b)[1..] == a[1..] + b;
      PerformConcat(f, domain, Perform(f, domain, s, a[0]), a[1..], b);
    }
  }

  /** Whatever went wrong before, a Sync that gets through its strip puts the list in sync, and careful
      operations keep it there. */
  lemma SyncHeals(f: Folding, domain: string, s: Store, before: seq<Op>, after: seq<Op>)
    requires Careful(f, domain, PerformAll(f, domain, s, before + [Sync(None)]), after)
    ensures Agrees(f, domain, PerformAll(f, domain, s, before + [Sync(None)] + after))
  {
    hide Careful, Mirroring, Mirrored;
    var mid := PerformAll(f, domain, s, before);
    PerformConcat(f, domain, s, before, [Sync(None)]);
    PerformConcat(f, domain, s, before + [Sync(None)], after);
    assert [Sync(None)][1..] == [];
    var healed := Perform(f, domain, mid, Sync(None));
    assert PerformAll(f, domain, mid, [Sync(None)]) == PerformAll(f, domain, healed, []) == healed;
    RebuildIdempotent(f, domain, mid.records, mid.leases);
    RunStaysInSync(f, domain, healed, after);
  }

  predicate DistinctHosts(f: Folding, ls: seq<Lease>) {
    forall i, j :: 0 <= i < |ls| && 0 <= j < |ls| && i != j ==> !SameHost(f, ls[i], ls[j])
  }

  lemma DistinctRemovable(f: Folding, domain: string, rs: seq<Record>, ls: seq<Lease>, i: nat)
    requires i < |ls| && DistinctHosts(f, ls) && InSync(f, domain, rs, ls) && |Foreign(rs)| + |ls| <= MAX_STATIC_RECORDS
    ensures Removable(f, domain, rs, ls, i)
  {
    hide SameHost, NameTaken, Mirroring;
    forall j | 0 <= j < |ls| ensures LeaseTaken(f, domain, rs, ls[j]) {
      RoomForAll(f, domain, Foreign(rs), ls, j);
      SyncedFacts(f, domain, rs, ls, Fqdn(domain, ls[j].hostname));
    }
  }

  /** With room for every lease each name is taken in the end. */
  lemma {:induction false} RoomForAll(f: Folding, domain: string, rs: seq<Record>, ls: seq<Lease>, j: nat)
    requires j < |ls| && |rs| + |ls| <= MAX_STATIC_RECORDS
    ensures LeaseTaken(f, domain, Mirroring(f, domain, rs, ls), ls[j])
    decreases |ls|
  {
    hide EqualFold, Fqdn, NameTaken;
    var rs', name := WithMirror(f, domain, rs, ls[0]), Fqdn(domain, ls[j].hostname);
    if j > 0 {
      assert ls[1..][j - 1] == ls[j];
      RoomForAll(f, domain, rs', ls[1..], j - 1);
    } else {
      MirrorStep(f, domain, rs, ls[0], name);
      OneMirrored(f, domain, rs, ls[0]);
      MirroringNames(f, domain, rs', ls[1..], name);
    }
  }

  lemma OneMirrored(f: Folding, domain: string, rs: seq<Record>, l: Lease)
    requires !Full(rs)
    ensures LeaseTaken(f, domain, WithMirror(f, domain, rs, l), l)
  {
    hide Fqdn, EqualFold;
    var r := MirrorOf(domain, l);
    EqualFoldSelf(f, r.name);
    assert (rs + [r])[|rs|] == r;
  }

  predicate Saved(op: Op) {
    match op
    case AddLease(_, saved) => saved
    case RemoveLease(_, saved) => saved
    case Sync(failsAt) => failsAt.None?
  }

  /** Wherever the run removes a lease, the leases of that moment have distinct hostnames and room. */
  ghost predicate Orderly(f: Folding, domain: string, s: Store, ops: seq<Op>)
    decreases |ops|
  {
    ops != [] ==>
      && Saved(ops[0])
      && (ops[0].RemoveLease? ==> DistinctHosts(f, s.leases) && |Foreign(s.records)| + |s.leases| <= MAX_STATIC_RECORDS)
      && Orderly(f, domain, Perform(f, domain, s, ops[0]), ops[1..])
  }

  /** From a list in sync, saves that succeed and, at each removal, hostnames distinct up to case with the
      cap not reached make any run careful, so that it ends in sync. */
  lemma {:induction false} DistinctHostsCareful(f: Folding, domain: string, s: Store, ops: seq<Op>)
    requires Agrees(f, domain, s) && Orderly(f, domain, s, ops)
    ensures Careful(f, domain, s, ops) && Agrees(f, domain, PerformAll(f, domain, s, ops))
    decreases |ops|
  {
    hide InSync, Removable, DistinctHosts, Perform;
    if ops != [] {
      var op := ops[0];
      if op.RemoveLease? && 0 <= op.index < |s.leases| { DistinctRemovable(f, domain, s.records, s.leases, op.index); }
      StepKeepsSyncIff(f, domain, s, op);
      DistinctHostsCareful(f, domain, Perform(f, domain, s, op), ops[1..]);
    }
  }

  lemma PerformKeepsForeign(f: Folding, domain: string, s: Store, op: Op)
    ensures Foreign(Perform(f, domain, s, op).records) == Foreign(s.records)
  {
    hide Reserved, Mirroring, WithMirror, Stripped;
    match op
    case AddLease(l, _) => MirrorView(f, domain, s.records, s.records, l);
    case RemoveLease(i, _) =>
      if 0 <= i < |s.leases| { WithoutFirstFacts(f, s.records, Fqdn(domain, s.leases[i].hostname)); }
    case Sync(failsAt) =>
      RebuildIdempotent(f, domain, s.records, s.leases);
      if StripFails(s.records, failsAt) { StripFacts(s.records, failsAt.value + 1); }
  }

  /** No run of lease operations and Syncs, whichever saves fail, changes, drops or reorders a record of
      another source. */
  lemma {:induction false} RunKeepsForeign(f: Folding, domain: string, s: Store, ops: seq<Op>)
    ensures Foreign(PerformAll(f, domain, s, ops).records) == Foreign(s.records)
    decreases |ops|
  {
    hide Perform;
    if ops != [] {
      PerformKeepsForeign(f, domain, s, ops[0]);
      RunKeepsForeign(f, domain, Perform(f, domain, s, ops[0]), ops[1..]);
    }
  }

  // ---------- The services ----------

  datatype LeaseResult = LeaseOk | MacTaken | IpTaken | NoSuchLease | SaveFailed
  datatype RecordResult = RecordOk | ListFull | NameExists | NoSuchRecord | RecordNotSaved
  datatype SyncResult = NoDns | StripFailed | ApplyFailed | Synced

  class Services {
    const fold: Folding
    const dnsWired: bool
    var domain: string
    var records: seq<Record>
    var leases: seq<Lease>

    constructor (fold: Folding, dnsWired: bool, domain: string, records: seq<Record>, leases: seq<Lease>)
      ensures this.fold == fold && this.dnsWired == dnsWired && this.domain == domain
      ensures this.records == records && this.leases == leases
    {
      this.fold, this.dnsWired, this.domain, this.records, this.leases := fold, dnsWired, domain, records, leases;
    }

    /** config.SaveToFile may fail; the configuration in memory stays as it is. */
    method Save() returns (ok: bool) {
      ok := *;
    }

    method AddStaticRecord(rec: Record) returns (r: RecordResult)
      modifies this`records
      ensures records == WithRecord(fold, old(records), rec)
      ensures r == ListFull <==> |old(records)| >= MAX_STATIC_RECORDS
      ensures r == NameExists <==> |old(records)| < MAX_STATIC_RECORDS && NameTaken(fold, old(records), rec.name)
      ensures r in {RecordOk, ListFull, NameExists, RecordNotSaved}
    {
      if |records| >= MAX_STATIC_RECORDS { return ListFull; }
      for i := 0 to |records|
        invariant forall k :: 0 <= k < i ==> !EqualFold(fold, records[k].name, rec.name)
        invariant records == old(records)
      {
        if EqualFold(fold, records[i].name, rec.name) { return NameExists; }
      }
      records := records + [rec];
      var ok := Save();
      return if ok then RecordOk else RecordNotSaved;
    }

    method RemoveStaticRecord(index: int) returns (r: RecordResult)
      modifies this`records
      ensures r == NoSuchRecord <==> !(0 <= index < |old(records)|)
      ensures records == if 0 <= index < |old(records)| then Without(old(records), index) else old(records)
      ensures r in {RecordOk, NoSuchRecord, RecordNotSaved}
    {
      if index < 0 || index >= |records| { return NoSuchRecord; }
      records := records[..index] + records[index + 1..];
      var ok := Save();
      return if ok then RecordOk else RecordNotSaved;
    }

    method FindStaticRecordIndexBySource(source: string, name: string) returns (idx: int)
      ensures idx == -1 <==> forall k :: 0 <= k < |records| ==> !Owns(fold, records[k], source, name)
      ensures idx != -1 ==> 0 <= idx < |records| && Owns(fold, records[idx], source, name)
      ensures idx != -1 ==> forall k :: 0 <= k < idx ==> !Owns(fold, records[k], source, name)
    {
      for i := 0 to |records|
        invariant forall k :: 0 <= k < i ==> !Owns(fold, records[k], source, name)
      {
        if records[i].source == source && EqualFold(fold, records[i].name, name) { return i; }
      }
      return -1;
    }

    method AddStaticLease(mac: string, ip: string, hostname: string) returns (r: LeaseResult)
      modifies this`records, this`leases
      ensures r in {LeaseOk, MacTaken, IpTaken, SaveFailed}
      ensures r in {MacTaken, IpTaken} <==> Reserved(fold, old(leases), mac, ip)
      ensures Reserved(fold, old(leases), mac, ip) ==> leases == old(leases) && records == old(records)
      ensures r in {LeaseOk, SaveFailed} ==> leases == old(leases) + [Lease(mac, ip, hostname)]
      ensures r == SaveFailed ==> records == old(records)
      ensures r == LeaseOk ==> records == if dnsWired then WithMirror(fold, domain, old(records), Lease(mac, ip, hostname)) else old(records)
      ensures dnsWired ==>
        Store(records, leases) == Perform(fold, domain, Store(old(records), old(leases)), AddLease(Lease(mac, ip, hostname), r == LeaseOk))
    {
      for i := 0 to |leases|
        invariant forall k :: 0 <= k < i ==> !EqualFold(fold, leases[k].mac, mac) && leases[k].ip != ip
        invariant leases == old(leases) && records == old(records)
      {
        if EqualFold(fold, leases[i].mac, mac) { return MacTaken; }
        if leases[i].ip == ip { return IpTaken; }
      }
      leases := leases + [Lease(mac, ip, hostname)];
      var saved := Save();
      if !saved { return SaveFailed; }
      if dnsWired && hostname != "" {
        var mirror := Record(Fqdn(domain, hostname), ip, DHCP_STATIC, false, false);
        var ignored := AddStaticRecord(mirror);
      }
      return LeaseOk;
    }

    method RemoveStaticLease(index: int) returns (r: LeaseResult)
      modifies this`records, this`leases
      ensures r in {LeaseOk, NoSuchLease, SaveFailed}
      ensures r == NoSuchLease <==> !(0 <= index < |old(leases)|)
      ensures leases == if 0 <= index < |old(leases)| then Without(old(leases), index) else old(leases)
      ensures r == LeaseOk && dnsWired ==> records == AfterRemove(fold, domain, old(records), old(leases)[index])
      ensures r != LeaseOk || !dnsWired ==> records == old(records)
      ensures dnsWired ==> Store(records, leases) == Perform(fold, domain, Store(old(records), old(leases)), RemoveLease(index, r == LeaseOk))
    {
      if index < 0 || index >= |leases| { return NoSuchLease; }
      var removed := leases[index];
      leases := leases[..index] + leases[index + 1..];
      var saved := Save();
      if !saved { return SaveFailed; }
      if dnsWired && removed.hostname != "" {
        var name := Fqdn(domain, removed.hostname);
        var idx := FindStaticRecordIndexBySource(DHCP_STATIC, name);
        if idx < 0 {
          NothingOwned(fold, records, name);
        } else {
          SplicesOwned(fold, records, name, idx);
          var ignored := RemoveStaticRecord(idx);
        }
      }
      return LeaseOk;
    }

    /** Strip every dhcp-static record one by one, then mirror the leases afresh. */
    method SyncStaticDNSRecords() returns (r: SyncResult)
      modifies this`records
      ensures r in {ApplyFailed, Synced} ==> Store(records, leases) == Perform(fold, domain, Store(old(records), leases), Sync(None))
      ensures r == StripFailed ==> exists k ::
        StripFails(old(records), Some(k)) && Store(records, leases) == Perform(fold, domain, Store(old(records), leases), Sync(Some(k)))
      ensures r == NoDns <==> !dnsWired
      ensures r == NoDns ==> records == old(records)
    {
      hide Stripped, Mirroring, Foreign, Mirrored;
      if !dnsWired { return NoDns; }
      var stripped, k := StripMirrors();
      if !stripped {
        assert StripFails(old(records), Some(k));
        return StripFailed;
      }
      MirrorLeases();
      var applied := Save();
      return if applied then Synced else ApplyFailed;
    }

    method StripMirrors() returns (ok: bool, ghost k: nat)
      modifies this`records
      ensures ok ==> records == Foreign(old(records))
      ensures !ok ==> k < |Mirrored(old(records))| && records == Stripped(old(records), k + 1)
    {
      k := 0;
      while true
        invariant records == Stripped(old(records), k) && k <= |Mirrored(old(records))|
        decreases |records|
      {
        StripFacts(old(records), k);
        var idx := -1;
        for i := 0 to |records|
          invariant idx == -1 && forall j :: 0 <= j < i ==> records[j].source != DHCP_STATIC
          invariant records == Stripped(old(records), k)
        {
          if records[i].source == DHCP_STATIC {
            idx := i;
            break;
          }
        }
        if idx < 0 {
          AllForeign(records);
          return true, k;
        }
        DropsAt(records, idx);
        var removed := RemoveStaticRecord(idx);
        if removed != RecordOk { return false, k; }
        k := k + 1;
      }
    }

    method MirrorLeases()
      modifies this`records
      ensures records == Mirroring(fold, domain, old(records), leases)
    {
      for i := 0 to |leases|
        invariant records == Mirroring(fold, domain, old(records), leases[..i])
      {
        assert leases[..i + 1] == leases[..i] + [leases[i]];
        MirroringFacts(fold, domain, old(records), leases[..i], [leases[i]]);
        assert [leases[i]][1..] == [];
        if leases[i].hostname == "" { continue; }
        var name := Fqdn(domain, leases[i].hostname);
        var ignored := AddStaticRecord(Record(name, leases[i].ip, DHCP_STATIC, false, false));
      }
      assert leases[..|leases|] == leases;
    }
  }

  lemma {:induction false} NothingOwned(f: Folding, rs: seq<Record>, name: string)
    requires forall k :: 0 <= k < |rs| ==> !Owns(f, rs[k], DHCP_STATIC, name)
    ensures WithoutFirst(f, rs, name) == rs
  {
    hide Owns;
    if rs != [] {
      assert !Owns(f, rs[0], DHCP_STATIC, name);
      NothingOwned(f, rs[1..], name);
    }
  }

  lemma {:induction false} SplicesOwned(f: Folding, rs: seq<Record>, name: string, i: nat)
    requires i < |rs| && Owns(f, rs[i], DHCP_STATIC, name)
    requires forall k :: 0 <= k < i ==> !Owns(f, rs[k], DHCP_STATIC, name)
    ensures WithoutFirst(f, rs, name) == Without(rs, i)
  {
    hide Owns;
    if i > 0 {
      assert !Owns(f, rs[0], DHCP_STATIC, name);
      SplicesOwned(f, rs[1..], name, i - 1);
      assert [rs[0]] + Without(rs[1..], i - 1) == Without(rs, i);
    }
  }

  lemma {:induction false} DropsAt(rs: seq<Record>, i: nat)
    requires i < |rs| && rs[i].source == DHCP_STATIC && forall k :: 0 <= k < i ==> rs[k].source != DHCP_STATIC
    ensures DropMirror(rs) == Without(rs, i) && Mirrored(rs) != []
  {
    if i > 0 {
      DropsAt(rs[1..], i - 1);
      assert [rs[0]] + Without(rs[1..], i - 1) == Without(rs, i);
    }
  }

  lemma {:induction false} AllForeign(rs: seq<Record>)
    requires forall k :: 0 <= k < |rs| ==> rs[k].source != DHCP_STATIC
    ensures Foreign(rs) == rs
  {
    if rs != [] { AllForeign(rs[1..]); }
  }
}
