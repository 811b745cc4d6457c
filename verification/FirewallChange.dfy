/** Apply, confirm and roll back of the firewall (internal/netutil/atomic.go and
    internal/services/firewall.go). `nft -f` replaces the whole ruleset or changes nothing;
    every command's success is an input. */
module FirewallChange {
  import opened Text

  datatype ApplyOutcome = ApplyOutcome(render: bool, list: bool, check: bool, load: bool)
  datatype RestoreOutcome = RestoreOutcome(flush: bool, write: bool, load: bool)

  // ---------- One change ----------

  /** AtomicChange: `armed` while its timer runs, `firing` from expiry until the rollback ran. */
  datatype Change = Change(snapshot: string, applied: bool, armed: bool, firing: bool)

  predicate Restores(snapshot: string, o: RestoreOutcome) { snapshot != "" && o.flush && o.write && o.load }

  function RulesetAfterRestore(ruleset: string, snapshot: string, o: RestoreOutcome): string {
    if snapshot == "" || !o.flush then ruleset
    else if !o.write || !o.load then ""
    else snapshot
  }

  function ChangeAfterRestore(c: Change, o: RestoreOutcome): Change {
    c.(armed := false, applied := c.applied && !Restores(c.snapshot, o))
  }

  class Kernel {
    var ruleset: string
    constructor (ruleset: string) ensures this.ruleset == ruleset { this.ruleset := ruleset; }
  }

  class AtomicChange {
    var snapshot: string
    var applied: bool
    var armed: bool
    var firing: bool

    ghost function View(): Change reads this { Change(snapshot, applied, armed, firing) }

    constructor ()
      ensures View() == Change("", false, false, false)
    {
      snapshot, applied, armed, firing := "", false, false, false;
    }

    method Snapshot(k: Kernel, ok: bool)
      modifies this`snapshot
      ensures snapshot == if ok then k.ruleset else old(snapshot)
    {
      if ok {
        snapshot := k.ruleset;
      }
    }

    method Apply(k: Kernel, rules: string, ok: bool)
      modifies this`applied, k
      ensures k.ruleset == if ok then rules else old(k.ruleset)
      ensures applied == (ok || old(applied))
    {
      if !ok { return; }
      k.ruleset := rules;
      applied := true;
    }

    method StartWatchdog()
      modifies this`armed
      ensures armed
    {
      armed := true;
    }

    /** The timer runs out; its callback has yet to take the lock. */
    method Expire()
      modifies this`armed, this`firing
      ensures View() == if old(armed) then old(View()).(armed := false, firing := true) else old(View())
    {
      if armed {
        armed, firing := false, true;
      }
    }

    method Confirm()
      modifies this`armed
      ensures !armed
    {
      armed := false;
    }

    method Rollback(k: Kernel, o: RestoreOutcome) returns (ok: bool)
      modifies this`armed, this`applied, k
      ensures ok == Restores(snapshot, o)
      ensures k.ruleset == RulesetAfterRestore(old(k.ruleset), snapshot, o)
      ensures View() == ChangeAfterRestore(old(View()), o)
    {
      armed := false;
      if snapshot == "" { return false; }
      if !o.flush { return false; }
      k.ruleset := "";
      if !o.write { return false; }
      if !o.load { return false; }
      k.ruleset := snapshot;
      applied := false;
      return true;
    }
  }

  class FirewallService {
    const kernel: Kernel
    var change: AtomicChange?
    ghost var history: seq<AtomicChange>

    /** Every change ever made current is remembered; the current one is the last. */
    ghost predicate Valid()
      reads this
    {
      && (change != null ==> history != [] && history[|history| - 1] == change)
      && forall i, j :: 0 <= i < j < |history| ==> history[i] != history[j]
    }

    /** The service, the kernel and every timer, as the state of the run theorems. */
    ghost function Model(): State
      reads this, kernel, history
    {
      State(kernel.ruleset, Views(history), if change == null then None else Some(if history == [] then 0 else |history| - 1))
    }

    constructor (kernel: Kernel)
      ensures this.kernel == kernel && Valid() && Model() == State(kernel.ruleset, [], None)
    {
      this.kernel, change, history := kernel, null, [];
    }

    /** Renders, snapshots, checks and loads; a failure leaves the ruleset alone. */
    method Load(rules: string, o: ApplyOutcome) returns (ac: AtomicChange?)
      modifies kernel
      ensures ac == null <==> !ApplyOk(o)
      ensures kernel.ruleset == if ac == null then old(kernel.ruleset) else rules
      ensures ac != null ==> fresh(ac) && ac.View() == NewChange(old(kernel.ruleset), o).(armed := false)
    {
      if !o.render { return null; }
      ac := new AtomicChange();
      ac.Snapshot(kernel, o.list);
      if !o.check { return null; }
      ac.Apply(kernel, rules, o.load);
      if !o.load { return null; }
    }

    /** Only a change that was loaded replaces the previous one, whose timer keeps running. */
    method Apply(rules: string, o: ApplyOutcome) returns (ok: bool)
      requires Valid()
      modifies this, kernel
      ensures Valid() && ok == ApplyOk(o)
      ensures Model() == Next(old(Model()), DoApply(rules, o))
    {
      ghost var before := Views(history);
      var ac := Load(rules, o);
      assert Views(history) == before;
      if ac == null { return false; }
      ac.StartWatchdog();
      assert Views(history) == before;
      assert ac !in history;
      change := ac;
      history := history + [ac];
      assert Views(history) == before + [ac.View()];
      return true;
    }

    method Confirm()
      requires Valid()
      modifies this`change, change
      ensures Valid() && Model() == Next(old(Model()), DoConfirm)
    {
      if change != null {
        change.Confirm();
        change := null;
        assert Views(history) == old(Views(history)[|history| - 1 := change.View().(armed := false)]);
      }
    }

    method Rollback(o: RestoreOutcome) returns (ok: bool)
      requires Valid()
      modifies this`change, change, kernel
      ensures Valid() && Model() == Next(old(Model()), DoRollback(o))
      ensures ok == (old(change) != null ==> Restores(old(change.snapshot), o))
    {
      ok := true;
      if change != null {
        ok := change.Rollback(kernel, o);
        change := null;
        assert Views(history) == old(Views(history)[|history| - 1 := ChangeAfterRestore(change.View(), o)]);
      }
    }

    /** The timer of any change, current or dropped, runs out. */
    method TimerExpires(ghost i: nat, ac: AtomicChange)
      requires Valid() && i < |history| && history[i] == ac
      modifies ac
      ensures Valid() && Model() == Next(old(Model()), Action.TimerExpires(i))
    {
      ac.Expire();
      assert Views(history) == old(Views(history))[i := ac.View()];
    }

    /** Its callback rolls that change back, whatever is current by then. */
    method TimerRollsBack(ghost i: nat, ac: AtomicChange, o: RestoreOutcome) returns (ok: bool)
      requires Valid() && i < |history| && history[i] == ac && ac.firing
      modifies ac, kernel
      ensures Valid() && Model() == Next(old(Model()), Action.TimerRollsBack(i, o))
    {
      ok := ac.Rollback(kernel, o);
      ac.firing := false;
      assert Views(history) == old(Views(history))[i := ac.View()];
    }
  }

  ghost function Views(history: seq<AtomicChange>): (vs: seq<Change>)
    reads history
  {
    seq(|history|, i requires 0 <= i < |history| reads history => history[i].View())
  }

  // ---------- Runs: the service, the kernel and every timer ever started ----------

  function NewChange(ruleset: string, o: ApplyOutcome): Change {
    Change(if o.list then ruleset else "", true, true, false)
  }

  datatype State = State(ruleset: string, changes: seq<Change>, current: Option<nat>)

  datatype Action =
    | DoApply(rules: string, outcome: ApplyOutcome)
    | DoConfirm
    | DoRollback(restore: RestoreOutcome)
    | TimerExpires(change: nat)
    | TimerRollsBack(change: nat, restore: RestoreOutcome)

  predicate Valid(s: State) { s.current.Some? ==> s.current.value < |s.changes| }

  predicate ApplyOk(o: ApplyOutcome) { o.render && o.check && o.load }

  function Restore(s: State, i: nat, o: RestoreOutcome): State
    requires i < |s.changes|
  {
    s.(ruleset := RulesetAfterRestore(s.ruleset, s.changes[i].snapshot, o), changes := s.changes[i := ChangeAfterRestore(s.changes[i], o)])
  }

  function Next(s: State, a: Action): (s': State)
    requires Valid(s)
    ensures Valid(s')
  {
    match a
    case DoApply(rules, o) =>
      if ApplyOk(o) then State(rules, s.changes + [NewChange(s.ruleset, o)], Some(|s.changes|)) else s
    case DoConfirm =>
      if s.current.None? then s
      else s.(current := None, changes := s.changes[s.current.value := s.changes[s.current.value].(armed := false)])
    case DoRollback(o) => if s.current.None? then s else Restore(s, s.current.value, o).(current := None)
    case TimerExpires(i) =>
      if i < |s.changes| && s.changes[i].armed then s.(changes := s.changes[i := s.changes[i].(armed := false, firing := true)]) else s
    case TimerRollsBack(i, o) =>
      if i < |s.changes| && s.changes[i].firing then
        var s1 := Restore(s, i, o);
        s1.(changes := s1.changes[i := s1.changes[i].(firing := false)])
      else s
  }

  function Run(s: State, actions: seq<Action>): (s': State)
    requires Valid(s)
    ensures Valid(s')
    decreases |actions|
  {
    if actions == [] then s else Run(Next(s, actions[0]), actions[1..])
  }

  predicate NoApply(actions: seq<Action>) { forall i :: 0 <= i < |actions| ==> !actions[i].DoApply? }

  // ---------- When is a ruleset settled? ----------

  /** A change whose rollback can still happen by itself, to a ruleset worth restoring. */
  predicate Threat(c: Change) { (c.armed || c.firing) && c.snapshot != "" }

  ghost predicate Settled(s: State)
    requires Valid(s)
  {
    forall actions :: NoApply(actions) ==> Run(s, actions).ruleset == s.ruleset
  }

  predicate Calm(s: State) { forall i :: 0 <= i < |s.changes| ==> !Threat(s.changes[i]) }

  lemma {:induction false} CalmStays(s: State, actions: seq<Action>)
    requires Valid(s) && s.current.None? && Calm(s) && NoApply(actions)
    ensures Run(s, actions).ruleset == s.ruleset
    decreases |actions|
  {
    if actions != [] { CalmStays(Next(s, actions[0]), actions[1..]); }
  }

  lemma ThreatStrikes(s: State, i: nat)
    requires Valid(s) && i < |s.changes| && Threat(s.changes[i])
    ensures !Settled(s)
  {
    var expire, fail, restore := TimerExpires(i), TimerRollsBack(i, RestoreOutcome(true, true, false)), TimerRollsBack(i, RestoreOutcome(true, true, true));
    var last := if s.ruleset == "" then restore else fail;
    var s1 := Next(s, expire);
    assert s1.changes[i].firing && s1.changes[i].snapshot == s.changes[i].snapshot && s1.ruleset == s.ruleset;
    var actions := [expire, last];
    assert actions[1..] == [last] && [last][1..] == [];
    assert Run(s1, [last]) == Next(s1, last);
    assert Run(s, actions) == Next(s1, last) && NoApply(actions);
  }

  /** With no change left to roll back by hand, the ruleset stays until the next apply exactly when
      no timer, running or already expired, holds a non-empty snapshot. */
  lemma SettledIff(s: State)
    requires Valid(s) && s.current.None?
    ensures Settled(s) <==> Calm(s)
  {
    if Calm(s) {
      forall actions | NoApply(actions) ensures Run(s, actions).ruleset == s.ruleset { CalmStays(s, actions); }
    } else {
      var i :| 0 <= i < |s.changes| && Threat(s.changes[i]);
      ThreatStrikes(s, i);
    }
  }

  /** Confirming settles the ruleset exactly when its own timer has not expired yet and no timer of
      an earlier, dropped change is pending (snapshots being non-empty). */
  lemma ConfirmSettlesIff(s: State)
    requires Valid(s) && s.current.Some?
    ensures Next(s, DoConfirm).ruleset == s.ruleset
    ensures Settled(Next(s, DoConfirm)) <==>
            && (s.changes[s.current.value].firing ==> s.changes[s.current.value].snapshot == "")
            && forall i :: 0 <= i < |s.changes| && i != s.current.value ==> !Threat(s.changes[i])
  {
    var s' := Next(s, DoConfirm);
    SettledIff(s');
    assert forall i :: 0 <= i < |s.changes| && i != s.current.value ==> s'.changes[i] == s.changes[i];
    assert Threat(s'.changes[s.current.value]) <==> s.changes[s.current.value].firing && s.changes[s.current.value].snapshot != "";
  }

  // ---------- Serial use ----------

  predicate Busy(c: Change) { c.armed || c.firing }

  /** Only the current change has a running timer. */
  predicate Solo(s: State) { forall i :: 0 <= i < |s.changes| && s.changes[i].armed ==> s.current == Some(i) }

  predicate AtRest(s: State) { forall i :: 0 <= i < |s.changes| ==> !Busy(s.changes[i]) }

  /** Every successful apply of the run starts with no earlier timer pending. */
  predicate Serial(s: State, actions: seq<Action>)
    requires Valid(s)
    decreases |actions|
  {
    actions != [] ==> (actions[0].DoApply? && ApplyOk(actions[0].outcome) ==> AtRest(s)) && Serial(Next(s, actions[0]), actions[1..])
  }

  lemma {:induction false} SerialRunSolo(s: State, actions: seq<Action>)
    requires Valid(s) && Solo(s) && Serial(s, actions)
    ensures Solo(Run(s, actions))
    decreases |actions|
  {
    if actions != [] {
      assert Solo(Next(s, actions[0]));
      SerialRunSolo(Next(s, actions[0]), actions[1..]);
    }
  }

  /** In a serial run, a confirm that no expiry overtook keeps the ruleset until the next apply. */
  lemma SerialConfirmSettles(s: State, actions: seq<Action>)
    requires Valid(s) && Solo(s) && Serial(s, actions)
    requires var e := Run(s, actions); e.current.Some? && forall i :: 0 <= i < |e.changes| ==> !e.changes[i].firing
    ensures Settled(Next(Run(s, actions), DoConfirm))
  {
    SerialRunSolo(s, actions);
    ConfirmSettlesIff(Run(s, actions));
  }

  /** The overlap is real: a second apply strands the first timer, which later undoes a confirmed ruleset. */
  lemma SecondApplyUndoesConfirm(s: State, r1: string, r2: string)
    requires Valid(s) && s.ruleset != "" && r2 != s.ruleset
    ensures var ok := ApplyOutcome(true, true, true, true);
            var confirmed := Run(s, [DoApply(r1, ok), DoApply(r2, ok), DoConfirm]);
            confirmed.ruleset == r2 && confirmed.current.None? && !Settled(confirmed)
  {
    var ok := ApplyOutcome(true, true, true, true);
    var a, b := DoApply(r1, ok), DoApply(r2, ok);
    var s1 := Next(s, a);
    var s2 := Next(s1, b);
    assert [a, b, DoConfirm][1..] == [b, DoConfirm] && [b, DoConfirm][1..] == [DoConfirm] && [DoConfirm][1..] == [];
    assert Run(s2, [DoConfirm]) == Next(s2, DoConfirm);
    assert Run(s, [a, b, DoConfirm]) == Next(s2, DoConfirm);
    assert Threat(Next(s2, DoConfirm).changes[|s.changes|]);
    ThreatStrikes(Next(s2, DoConfirm), |s.changes|);
  }

  // ---------- Rolling back ----------

  lemma {:induction false} SnapshotKept(s: State, actions: seq<Action>, i: nat)
    requires Valid(s) && i < |s.changes|
    ensures i < |Run(s, actions).changes| && Run(s, actions).changes[i].snapshot == s.changes[i].snapshot
    decreases |actions|
  {
    if actions != [] { SnapshotKept(Next(s, actions[0]), actions[1..], i); }
  }

  /** From any later state, a rollback or expiry of the change restores exactly the ruleset that was loaded
      before it was applied, or, if it fails, leaves the present ruleset or none; without a snapshot it leaves
      the present one. */
  lemma RestoreBringsBack(s: State, rules: string, o: ApplyOutcome, actions: seq<Action>, last: Action)
    requires Valid(s) && ApplyOk(o)
    requires var e := Run(Next(s, DoApply(rules, o)), actions);
             || (last.DoRollback? && e.current == Some(|s.changes|))
             || (last.TimerRollsBack? && last.change == |s.changes| < |e.changes| && e.changes[last.change].firing)
    ensures var e := Run(Next(s, DoApply(rules, o)), actions);
            var r := Next(e, last).ruleset;
            if !o.list || s.ruleset == "" || !last.restore.flush then r == e.ruleset
            else if last.restore.write && last.restore.load then r == s.ruleset
            else r == ""
  {
    SnapshotKept(Next(s, DoApply(rules, o)), actions, |s.changes|);
  }

  // ---------- Where a ruleset comes from ----------

  /** The step is an apply that loads `rules`. */
  predicate Loads(a: Action) { a.DoApply? && ApplyOk(a.outcome) }

  /** The change whose restore the step runs, if any. */
  function RestoredBy(s: State, a: Action): Option<nat> {
    if a.DoRollback? then s.current
    else if a.TimerRollsBack? && a.change < |s.changes| && s.changes[a.change].firing then Some(a.change)
    else None
  }

  /** An apply that loads installs its rules; a restore puts back a snapshot, or flushes; nothing else, a failed
      apply, a confirm or an expiry included, changes the ruleset. */
  lemma RulesetMeans(s: State, a: Action)
    requires Valid(s)
    ensures var r, i := Next(s, a).ruleset, RestoredBy(s, a);
            if Loads(a) then r == a.rules
            else if i.Some? && s.changes[i.value].snapshot != "" && a.restore.flush
            then r == (if a.restore.write && a.restore.load then s.changes[i.value].snapshot else "")
            else r == s.ruleset
  {}

  /** A step changes the changes only where it must: an apply that loads appends one with its timer running, a
      confirm and a restore stop the one concerned, an expiry marks it. */
  lemma ChangesMean(s: State, a: Action, i: nat)
    requires Valid(s) && i < |s.changes|
    ensures var c, c' := s.changes[i], Next(s, a).changes[i];
            && |Next(s, a).changes| == |s.changes| + (if Loads(a) then 1 else 0)
            && c'.snapshot == c.snapshot
            && (c'.armed <==> c.armed && !(a.DoConfirm? && s.current == Some(i)) && RestoredBy(s, a) != Some(i) && !(a.TimerExpires? && a.change == i))
            && (c'.applied <==> c.applied && !(RestoredBy(s, a) == Some(i) && Restores(c.snapshot, a.restore)))
            && (c'.firing <==> (c.firing && !(a.TimerRollsBack? && a.change == i)) || (c.armed && a.TimerExpires? && a.change == i))
  {}

  /** The change that a confirm or a rollback by hand would concern: the last one loaded, until then. */
  lemma CurrentMeans(s: State, a: Action)
    requires Valid(s)
    ensures Next(s, a).current == if Loads(a) then Some(|s.changes|) else if a.DoConfirm? || a.DoRollback? then None else s.current
    ensures Loads(a) ==> Next(s, a).changes[|s.changes|] == Change(if a.outcome.list then s.ruleset else "", true, true, false)
  {}

  /** Apply with no earlier timer pending, then confirm: the new ruleset is loaded and stays until the next
      apply. */
  lemma ConfirmedRulesetStays(s: State, rules: string, o: ApplyOutcome, actions: seq<Action>)
    requires Valid(s) && AtRest(s) && ApplyOk(o) && NoApply(actions)
    ensures var confirmed := Next(Next(s, DoApply(rules, o)), DoConfirm);
            confirmed.ruleset == rules && confirmed.current.None? && Run(confirmed, actions).ruleset == rules
  {
    var applied := Next(s, DoApply(rules, o));
    var confirmed := Next(applied, DoConfirm);
    forall i | 0 <= i < |confirmed.changes| ensures !Threat(confirmed.changes[i]) {
      if i < |s.changes| { assert !Busy(s.changes[i]); }
    }
    CalmStays(confirmed, actions);
  }
}
