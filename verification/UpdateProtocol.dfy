/** The over-the-air update protocol of internal/services/update.go: apply with a backup,
    a 60-second watchdog that survives restarts through a state file, confirm and rollback.
    Commands and file operations are inputs that say whether they succeeded. */
module UpdateProtocol {
  import opened Text

  const BIN := "/usr/local/bin/lankeeper"
  const BAK := "/usr/local/bin/lankeeper.bak"
  const WINDOW := 60

  type Files = map<string, string>

  datatype Pending = Pending(version: string, previous: string, backup: string, appliedAt: int)

  /** A watchdog goroutine. Once cancelled it may still have passed its select. */
  datatype Dog = Dog(deadline: int, cancelled: bool, gone: bool)

  datatype State = State(
    files: Files, stateFile: Option<Pending>, startedAt: int,
    pendingVersion: string, previousVersion: string, backupBinary: string,
    cancel: Option<nat>, dogs: seq<Dog>)

  /** How each command of one ApplyUpdate ends; `torn` is what a failed copy leaves behind. */
  datatype ApplyOutcome = ApplyOutcome(
    hasUrl: bool, download: bool, checksum: bool, extract: bool, backup: bool, backupTorn: string,
    install: bool, torn: string, chmod: bool, version: bool, save: bool, undo: bool, undoTorn: string)

  /** `cp -f`: a missing source changes nothing, a failed copy leaves `torn`. */
  function Copy(files: Files, src: string, dst: string, ok: bool, torn: string): Files {
    if src !in files then files else files[dst := if ok then files[src] else torn]
  }

  function CancelDog(s: State): State {
    if s.cancel.Some? && s.cancel.value < |s.dogs|
    then s.(cancel := None, dogs := s.dogs[s.cancel.value := s.dogs[s.cancel.value].(cancelled := true)])
    else s.(cancel := None)
  }

  function ClearPending(s: State, cleared: bool): State {
    s.(pendingVersion := "", previousVersion := "", backupBinary := "", stateFile := if cleared then None else s.stateFile)
  }

  function Arm(s: State, p: Pending, deadline: int): State {
    s.(pendingVersion := p.version, previousVersion := p.previous, backupBinary := p.backup,
       cancel := Some(|s.dogs|), dogs := s.dogs + [Dog(deadline, false, false)])
  }

  /** The apply gets as far as copying the installed binary over the backup. */
  predicate ReachesBackup(s: State, o: ApplyOutcome) {
    o.hasUrl && o.download && o.checksum && o.extract && BIN in s.files
  }

  predicate ApplyStarts(s: State, o: ApplyOutcome) { ReachesBackup(s, o) && o.backup }

  predicate ApplySucceeds(s: State, o: ApplyOutcome) {
    ApplyStarts(s, o) && o.install && o.chmod && o.version && o.save
  }

  function Apply(s: State, version: string, current: string, newBinary: string, o: ApplyOutcome, at: int): State {
    if !ReachesBackup(s, o) then s
    else if !o.backup then s.(files := s.files[BAK := o.backupTorn])
    else
      var backed := s.files[BAK := s.files[BIN]];
      var installed := backed[BIN := if o.install then newBinary else o.torn];
      if !ApplySucceeds(s, o) then s.(files := Copy(installed, BAK, BIN, o.undo, o.undoTorn))
      else
        var p := Pending(version, current, BAK, at);
        Arm(s.(files := installed, stateFile := Some(p)), p, at + WINDOW)
  }

  function Confirm(s: State, removed: bool, cleared: bool): State {
    var s1 := CancelDog(s);
    var s2 := if s.backupBinary != "" && removed then s1.(files := s1.files - {s.backupBinary}) else s1;
    ClearPending(s2, cleared)
  }

  function RollbackSource(s: State): string { if s.backupBinary == "" then BAK else s.backupBinary }

  function Rollback(s: State, copied: bool, torn: string, cleared: bool): State {
    var s1 := CancelDog(s);
    var s2 := s1.(files := Copy(s1.files, RollbackSource(s), BIN, copied, torn));
    if RollbackSource(s) in s.files && copied then ClearPending(s2, cleared) else s2
  }

  /** A new process: memory and goroutines are lost, the state file is read back. */
  function Restart(s: State, readable: bool, at: int): State {
    var s1 := s.(startedAt := at, pendingVersion := "", previousVersion := "", backupBinary := "", cancel := None, dogs := []);
    if !readable || s.stateFile.None? || s.stateFile.value.version == "" || s.stateFile.value.backup == "" then s1
    else
      var p := s.stateFile.value;
      var remaining := WINDOW - (at - p.appliedAt);
      Arm(s1, p, at + (if remaining < 0 then 0 else remaining))
  }

  class UpdateService {
    var files: Files
    var stateFile: Option<Pending>
    var startedAt: int
    const currentVersion: string
    var pendingVersion: string
    var previousVersion: string
    var backupBinary: string
    var watchdogCancel: Option<nat>
    var dogs: seq<Dog>

    ghost function View(): State reads this {
      State(files, stateFile, startedAt, pendingVersion, previousVersion, backupBinary, watchdogCancel, dogs)
    }

    /** NewUpdateService: a new process, then restorePendingUpdate. */
    constructor (version: string, files: Files, stateFile: Option<Pending>, readable: bool, now: int)
      ensures forall before: State :: before.files == files && before.stateFile == stateFile ==> View() == Restart(before, readable, now)
    {
      currentVersion := version;
      this.files, this.stateFile, startedAt := files, stateFile, now;
      pendingVersion, previousVersion, backupBinary, watchdogCancel, dogs := "", "", "", None, [];
      if readable && stateFile.Some? && stateFile.value.version != "" && stateFile.value.backup != "" {
        pendingVersion := stateFile.value.version;
        previousVersion := stateFile.value.previous;
        backupBinary := stateFile.value.backup;
        var elapsed := now - stateFile.value.appliedAt;
        var remaining := WINDOW - elapsed;
        if remaining < 0 {
          remaining := 0;
        }
        watchdogCancel := Some(0);
        dogs := [Dog(now + remaining, false, false)];
      }
    }

    method Cancel()
      modifies this`watchdogCancel, this`dogs
      ensures View() == CancelDog(old(View()))
    {
      if watchdogCancel.Some? && watchdogCancel.value < |dogs| {
        dogs := dogs[watchdogCancel.value := dogs[watchdogCancel.value].(cancelled := true)];
      }
      watchdogCancel := None;
    }

    method ApplyUpdate(version: string, newBinary: string, o: ApplyOutcome, now: int) returns (ok: bool)
      modifies this
      ensures View() == Apply(old(View()), version, currentVersion, newBinary, o, now)
      ensures ok == ApplySucceeds(old(View()), o)
    {
      if !o.hasUrl { return false; }
      if !o.download { return false; }
      if !o.checksum { return false; }
      if !o.extract { return false; }
      if BIN !in files { return false; }
      files := Copy(files, BIN, BAK, o.backup, o.backupTorn);
      if !o.backup { return false; }
      if !o.install {
        files := files[BIN := o.torn];
        files := Copy(files, BAK, BIN, o.undo, o.undoTorn);
        return false;
      }
      files := files[BIN := newBinary];
      if !o.chmod || !o.version || !o.save {
        files := Copy(files, BAK, BIN, o.undo, o.undoTorn);
        return false;
      }
      stateFile := Some(Pending(version, currentVersion, BAK, now));
      pendingVersion := version;
      previousVersion := currentVersion;
      backupBinary := BAK;
      watchdogCancel := Some(|dogs|);
      dogs := dogs + [Dog(now + WINDOW, false, false)];
      return true;
    }

    method ConfirmUpdate(removed: bool, cleared: bool)
      modifies this
      ensures View() == Confirm(old(View()), removed, cleared)
    {
      Cancel();
      if backupBinary != "" {
        if removed {
          files := files - {backupBinary};
        }
      }
      if cleared {
        stateFile := None;
      }
      pendingVersion, previousVersion, backupBinary := "", "", "";
    }

    method RollbackUpdate(copied: bool, torn: string, cleared: bool) returns (ok: bool)
      modifies this
      ensures View() == Rollback(old(View()), copied, torn, cleared)
      ensures ok == (RollbackSource(old(View())) in old(files) && copied)
    {
      Cancel();
      var backup := backupBinary;
      if backup == "" {
        backup := BAK;
      }
      ok := backup in files && copied;
      files := Copy(files, backup, BIN, copied, torn);
      if !ok { return; }
      if cleared {
        stateFile := None;
      }
      pendingVersion, previousVersion, backupBinary := "", "", "";
    }
  }

  // ---------- Runs ----------

  datatype Action =
    | DoApply(version: string, current: string, newBinary: string, outcome: ApplyOutcome, at: int)
    | DoConfirm(removed: bool, cleared: bool)
    | DoRollback(copied: bool, torn: string, cleared: bool)
    | DogFires(dog: nat, at: int, copied: bool, torn: string, cleared: bool)
    | DogLeaves(dog: nat)
    | DoRestart(readable: bool, at: int)

  /** A watchdog whose delay has run out calls Rollback, even one cancelled in the meantime. */
  function Next(s: State, a: Action): State {
    match a
    case DoApply(v, cur, newBinary, o, at) => Apply(s, v, cur, newBinary, o, at)
    case DoConfirm(removed, cleared) => Confirm(s, removed, cleared)
    case DoRollback(copied, torn, cleared) => Rollback(s, copied, torn, cleared)
    case DogFires(i, at, copied, torn, cleared) =>
      if i < |s.dogs| && !s.dogs[i].gone && s.dogs[i].deadline <= at
      then Rollback(s.(dogs := s.dogs[i := s.dogs[i].(gone := true)]), copied, torn, cleared)
      else s
    case DogLeaves(i) =>
      if i < |s.dogs| && s.dogs[i].cancelled then s.(dogs := s.dogs[i := s.dogs[i].(gone := true)]) else s
    case DoRestart(readable, at) => Restart(s, readable, at)
  }

  function Run(s: State, actions: seq<Action>): State
    decreases |actions|
  {
    if actions == [] then s else Run(Next(s, actions[0]), actions[1..])
  }

  predicate NoApply(actions: seq<Action>) { forall i :: 0 <= i < |actions| ==> !actions[i].DoApply? }

  /** Backups live under one name, in memory and in the state file, and the armed watchdog is the
      one the state file describes. */
  ghost predicate Inv(s: State) {
    && s.backupBinary in {"", BAK}
    && (s.stateFile.Some? ==> s.stateFile.value.backup == BAK)
    && (s.cancel.Some? ==>
          && s.cancel.value < |s.dogs| && s.stateFile.Some? && s.pendingVersion == s.stateFile.value.version
          && s.previousVersion == s.stateFile.value.previous && s.backupBinary == s.stateFile.value.backup
          && s.dogs[s.cancel.value].deadline == Deadline(s.startedAt, s.stateFile.value.appliedAt)
          && !s.dogs[s.cancel.value].cancelled)
  }

  /** When an unconfirmed update is rolled back: 60 seconds after it was applied, or at once
      if the process came up later than that. */
  function Deadline(startedAt: int, appliedAt: int): int {
    if startedAt > appliedAt + WINDOW then startedAt else appliedAt + WINDOW
  }

  predicate ClockOk(s: State, a: Action) {
    (a.DoApply? ==> s.startedAt <= a.at) && (a.DoRestart? && s.stateFile.Some? ==> s.stateFile.value.appliedAt <= a.at)
  }

  lemma InvStep(s: State, a: Action)
    requires Inv(s) && ClockOk(s, a)
    ensures Inv(Next(s, a))
  {}

  predicate ClockRun(s: State, actions: seq<Action>)
    decreases |actions|
  {
    actions != [] ==> ClockOk(s, actions[0]) && ClockRun(Next(s, actions[0]), actions[1..])
  }

  /** Over every run: whenever a watchdog is armed, its deadline is the one the protocol promises,
      however many restarts lie between. */
  lemma {:induction false} RunKeepsDeadline(s: State, actions: seq<Action>)
    requires Inv(s) && ClockRun(s, actions)
    ensures Inv(Run(s, actions))
    decreases |actions|
  {
    if actions != [] {
      InvStep(s, actions[0]);
      RunKeepsDeadline(Next(s, actions[0]), actions[1..]);
    }
  }

  /** Restarting with a readable state file always re-arms exactly one watchdog. */
  lemma RestartArms(s: State, at: int)
    requires Inv(s) && s.stateFile.Some? && s.stateFile.value.version != "" && s.stateFile.value.appliedAt <= at
    ensures var s' := Restart(s, true, at);
            s'.dogs == [Dog(Deadline(at, s.stateFile.value.appliedAt), false, false)] && s'.cancel == Some(0)
  {}

  /** A watchdog that is neither cancelled nor gone. */
  predicate Live(d: Dog) { !d.cancelled && !d.gone }

  /** The only live watchdog is the one the service can still cancel. */
  predicate Solo(s: State) {
    (s.cancel.Some? ==> s.cancel.value < |s.dogs|) && forall i :: 0 <= i < |s.dogs| && Live(s.dogs[i]) ==> s.cancel == Some(i)
  }

  predicate Quiet(s: State) { forall i :: 0 <= i < |s.dogs| ==> !Live(s.dogs[i]) }

  lemma SoloStep(s: State, a: Action)
    requires Solo(s) && !a.DoApply?
    ensures Solo(Next(s, a))
  {}

  /** A successful apply leaves a stray watchdog behind exactly when one was still live: the
      second apply overwrites the cancel function of the first. */
  lemma ApplyKeepsSoloIff(s: State, version: string, current: string, newBinary: string, o: ApplyOutcome, at: int)
    requires Solo(s)
    ensures Solo(Apply(s, version, current, newBinary, o, at)) <==> (ApplySucceeds(s, o) ==> Quiet(s))
  {
    var s' := Apply(s, version, current, newBinary, o, at);
    if ApplySucceeds(s, o) {
      assert forall i :: 0 <= i < |s.dogs| ==> s'.dogs[i] == s.dogs[i];
    }
  }

  /** No successful apply of the run starts while a watchdog is live. */
  predicate NoOverlap(s: State, actions: seq<Action>)
    decreases |actions|
  {
    actions != [] ==>
      && (actions[0].DoApply? && ApplySucceeds(s, actions[0].outcome) ==> Quiet(s))
      && NoOverlap(Next(s, actions[0]), actions[1..])
  }

  /** In a run without overlapping applies, a watchdog that was not cancelled never rolls back
      before the deadline of the pending update. */
  lemma {:induction false} NeverEarly(s: State, actions: seq<Action>, i: nat, at: int)
    requires Inv(s) && Solo(s) && ClockRun(s, actions) && NoOverlap(s, actions)
    requires var e := Run(s, actions); i < |e.dogs| && Live(e.dogs[i]) && e.dogs[i].deadline <= at
    ensures var e := Run(s, actions);
            e.stateFile.Some? && e.pendingVersion == e.stateFile.value.version
            && Deadline(e.startedAt, e.stateFile.value.appliedAt) <= at
    decreases |actions|
  {
    if actions != [] {
      var a := actions[0];
      InvStep(s, a);
      if a.DoApply? {
        ApplyKeepsSoloIff(s, a.version, a.current, a.newBinary, a.outcome, a.at);
      } else {
        SoloStep(s, a);
      }
      NeverEarly(Next(s, a), actions[1..], i, at);
    }
  }

  // ---------- Someone watches ----------

  /** A pending update has a live watchdog that the service can cancel. */
  predicate Guarded(s: State) {
    s.pendingVersion != "" ==> s.cancel.Some? && s.cancel.value < |s.dogs| && Live(s.dogs[s.cancel.value])
  }

  /** The step is a rollback, by hand or on expiry, whose copy does not succeed. */
  predicate FailsToRollBack(s: State, a: Action) {
    && (a.DoRollback? || (a.DogFires? && a.dog < |s.dogs| && !s.dogs[a.dog].gone && s.dogs[a.dog].deadline <= a.at))
    && !(a.copied && RollbackSource(s) in s.files)
  }

  /** Only a failed rollback of a pending update leaves it unwatched: it cancels the watchdog first. */
  lemma GuardStepIff(s: State, a: Action)
    requires Guarded(s)
    ensures Guarded(Next(s, a)) <==> !(s.pendingVersion != "" && FailsToRollBack(s, a))
  {}

  /** No rollback of the run fails while an update is pending. */
  predicate Copies(s: State, actions: seq<Action>)
    decreases |actions|
  {
    actions != [] ==> !(s.pendingVersion != "" && FailsToRollBack(s, actions[0])) && Copies(Next(s, actions[0]), actions[1..])
  }

  /** In every such run, restarts and overlapping applies included, a pending update is watched: at its deadline
      there is a watchdog to fire, and one good copy then ends the update. */
  lemma {:induction false} PendingIsWatched(s: State, actions: seq<Action>)
    requires Inv(s) && Guarded(s) && ClockRun(s, actions) && Copies(s, actions)
    ensures var e := Run(s, actions);
            e.pendingVersion != "" ==>
              && e.cancel.Some? && e.cancel.value < |e.dogs| && Live(e.dogs[e.cancel.value]) && e.stateFile.Some?
              && var deadline := Deadline(e.startedAt, e.stateFile.value.appliedAt);
                 e.dogs[e.cancel.value].deadline == deadline
                 && forall torn, cleared :: RollbackSource(e) in e.files ==>
                      Next(e, DogFires(e.cancel.value, deadline, true, torn, cleared)).pendingVersion == ""
    decreases |actions|
  {
    if actions != [] {
      InvStep(s, actions[0]);
      GuardStepIff(s, actions[0]);
      hide Next;
      PendingIsWatched(Next(s, actions[0]), actions[1..]);
    }
  }

  // ---------- The backup ----------

  /** The weak half of Inv, which needs no clock. */
  ghost predicate OneBackup(s: State) {
    s.backupBinary in {"", BAK} && (s.stateFile.Some? ==> s.stateFile.value.backup == BAK)
  }

  /** What a step writes into the backup file: only an apply does, and before it can fail. */
  function BackupWritten(s: State, a: Action): Option<string> {
    if a.DoApply? && ReachesBackup(s, a.outcome)
    then Some(if a.outcome.backup then s.files[BIN] else a.outcome.backupTorn)
    else None
  }

  /** What the last apply of the run that reached its backup copy wrote there. */
  function LastBackup(s: State, actions: seq<Action>): Option<string>
    decreases |actions|
  {
    if actions == [] then None else
      var later := LastBackup(Next(s, actions[0]), actions[1..]);
      if later.Some? then later else BackupWritten(s, actions[0])
  }

  lemma BackupStep(s: State, a: Action)
    requires OneBackup(s)
    ensures OneBackup(Next(s, a))
    ensures BAK in Next(s, a).files ==>
            if BackupWritten(s, a).Some? then Next(s, a).files[BAK] == BackupWritten(s, a).value
            else BAK in s.files && Next(s, a).files[BAK] == s.files[BAK]
  {
    assert |BIN| != |BAK|;
  }

  lemma {:induction false} BackupTracked(s: State, actions: seq<Action>)
    requires OneBackup(s)
    ensures OneBackup(Run(s, actions))
    ensures BAK in Run(s, actions).files ==>
            if LastBackup(s, actions).Some? then Run(s, actions).files[BAK] == LastBackup(s, actions).value
            else BAK in s.files && Run(s, actions).files[BAK] == s.files[BAK]
    decreases |actions|
  {
    hide Next, OneBackup, BackupWritten;
    if actions != [] {
      BackupStep(s, actions[0]);
      BackupTracked(Next(s, actions[0]), actions[1..]);
    }
  }

  /** Does this step roll back, with a copy that succeeds? */
  predicate RollsBack(s: State, a: Action) {
    || (a.DoRollback? && a.copied && BAK in s.files)
    || (a.DogFires? && a.dog < |s.dogs| && !s.dogs[a.dog].gone && s.dogs[a.dog].deadline <= a.at && a.copied && BAK in s.files)
  }

  lemma RollbackCopies(s: State, a: Action)
    requires OneBackup(s) && RollsBack(s, a)
    ensures BIN in Next(s, a).files && Next(s, a).files[BIN] == s.files[BAK] && Next(s, a).pendingVersion == ""
  {}

  /** After an apply and any run of confirms, restarts, failed attempts and further applies, an expiry or
      rollback whose copy succeeds ends the pending update. It restores the binary from before the apply
      exactly when no later apply reached its backup copy, or the last one that did copied that same binary. */
  lemma RollbackRestoresIff(s: State, apply: Action, actions: seq<Action>, last: Action)
    requires OneBackup(s) && apply.DoApply? && ApplySucceeds(s, apply.outcome)
    requires RollsBack(Run(Next(s, apply), actions), last)
    ensures var end := Next(Run(Next(s, apply), actions), last);
            && BIN in end.files && end.pendingVersion == ""
            && (end.files[BIN] == s.files[BIN] <==> LastBackup(Next(s, apply), actions) in {None, Some(s.files[BIN])})
  {
    assert Next(s, apply).files[BAK] == s.files[BIN] by { assert |BIN| != |BAK|; }
    BackupStep(s, apply);
    BackupTracked(Next(s, apply), actions);
    RollbackCopies(Run(Next(s, apply), actions), last);
  }

  /** Every apply of the run that reaches its backup copy finds `old` installed, and copies it whole. */
  predicate BacksUpOnly(s: State, actions: seq<Action>, binary: string)
    decreases |actions|
  {
    actions != [] ==>
      && BackupWritten(s, actions[0]) in {None, Some(binary)}
      && BacksUpOnly(Next(s, actions[0]), actions[1..], binary)
  }

  lemma {:induction false} LastBackupIs(s: State, actions: seq<Action>, binary: string)
    requires BacksUpOnly(s, actions, binary)
    ensures LastBackup(s, actions) in {None, Some(binary)}
    decreases |actions|
  {
    if actions != [] { LastBackupIs(Next(s, actions[0]), actions[1..], binary); }
  }

  /** In particular the old binary comes back whenever every apply in between that reached its backup copy
      found it installed: after a failed attempt that was undone to it, or with no such apply at all. */
  lemma RollbackRestores(s: State, apply: Action, actions: seq<Action>, last: Action)
    requires OneBackup(s) && apply.DoApply? && ApplySucceeds(s, apply.outcome)
    requires BacksUpOnly(Next(s, apply), actions, s.files[BIN])
    requires RollsBack(Run(Next(s, apply), actions), last)
    ensures var end := Next(Run(Next(s, apply), actions), last);
            BIN in end.files && end.files[BIN] == s.files[BIN] && end.pendingVersion == ""
  {
    LastBackupIs(Next(s, apply), actions, s.files[BIN]);
    RollbackRestoresIff(s, apply, actions, last);
  }

  /** However an apply ends, the old binary survives under one of the two names. */
  lemma ApplyKeepsOldBinary(s: State, version: string, current: string, newBinary: string, o: ApplyOutcome, at: int)
    requires BIN in s.files
    ensures var f := Apply(s, version, current, newBinary, o, at).files;
            (BIN in f && f[BIN] == s.files[BIN]) || (BAK in f && f[BAK] == s.files[BIN])
    ensures ApplyStarts(s, o) && !ApplySucceeds(s, o) && o.undo ==> Apply(s, version, current, newBinary, o, at).files[BIN] == s.files[BIN]
  {}

  // ---------- Confirmed updates ----------

  /** No apply-free continuation changes the binary. */
  ghost predicate BinarySettled(s: State) {
    forall actions :: NoApply(actions) ==>
      (BIN in Run(s, actions).files <==> BIN in s.files) && (BIN in s.files ==> Run(s, actions).files[BIN] == s.files[BIN])
  }

  lemma {:induction false} NoBackupNoChange(s: State, actions: seq<Action>)
    requires OneBackup(s) && NoApply(actions) && BAK !in s.files
    ensures (BIN in Run(s, actions).files <==> BIN in s.files) && (BIN in s.files ==> Run(s, actions).files[BIN] == s.files[BIN])
    decreases |actions|
  {
    if actions != [] {
      var s' := Next(s, actions[0]);
      assert OneBackup(s') && s'.files == s.files;
      NoBackupNoChange(s', actions[1..]);
    }
  }

  /** The binary is settled exactly when no backup is left to roll back to. */
  lemma SettledIff(s: State)
    requires OneBackup(s) && BIN in s.files
    ensures BinarySettled(s) <==> BAK !in s.files
  {
    if BAK in s.files {
      var a := DoRollback(false, s.files[BIN] + "x", false);
      assert [a][1..] == [];
      assert Run(s, [a]) == Run(Next(s, a), []) == Next(s, a);
      assert |s.files[BIN] + "x"| != |s.files[BIN]|;
      assert Next(s, a).files[BIN] != s.files[BIN];
      assert NoApply([a]);
    } else {
      forall actions | NoApply(actions)
        ensures (BIN in Run(s, actions).files <==> BIN in s.files) && (BIN in s.files ==> Run(s, actions).files[BIN] == s.files[BIN])
      {
        NoBackupNoChange(s, actions);
      }
    }
  }

  /** After a confirm the binary is settled exactly when the confirm removed the backup (or there
      was none): no late watchdog, rollback or restart can then change it before the next apply. */
  lemma ConfirmSettlesIff(s: State, removed: bool, cleared: bool)
    requires OneBackup(s) && BIN in s.files
    ensures BinarySettled(Confirm(s, removed, cleared)) <==> (removed && s.backupBinary == BAK) || BAK !in s.files
  {
    SettledIff(Confirm(s, removed, cleared));
  }

  // ---------- Which binary is installed ----------

  predicate SameFile(a: Files, b: Files, name: string) { (name in a <==> name in b) && (name in a && name in b ==> a[name] == b[name]) }

  /** An apply that succeeds installs the new binary over the old one, which becomes the backup, and records the
      update; one that fails leaves everything but the two binaries as it was. */
  lemma ApplyInstalls(s: State, version: string, current: string, newBinary: string, o: ApplyOutcome, at: int)
    ensures var s' := Apply(s, version, current, newBinary, o, at);
            if ApplySucceeds(s, o) then
              && s'.files[BIN] == newBinary && s'.files[BAK] == s.files[BIN]
              && s'.pendingVersion == version && s'.previousVersion == current && s'.stateFile == Some(Pending(version, current, BAK, at))
            else s' == s.(files := s'.files)
  {
    assert |BIN| != |BAK|;
  }

  lemma OtherFileStep(s: State, a: Action, name: string)
    requires OneBackup(s) && name != BIN && name != BAK
    ensures SameFile(Next(s, a).files, s.files, name)
  {}

  /** No run ever touches a third file. */
  lemma {:induction false} OtherFilesKept(s: State, actions: seq<Action>, name: string)
    requires OneBackup(s) && name != BIN && name != BAK
    ensures SameFile(Run(s, actions).files, s.files, name)
    decreases |actions|
  {
    hide Next, OneBackup, BackupWritten;
    if actions != [] {
      BackupStep(s, actions[0]);
      OtherFileStep(s, actions[0], name);
      OtherFilesKept(Next(s, actions[0]), actions[1..], name);
    }
  }

  /** A confirm removes the backup, if it can, and changes no other file. */
  lemma ConfirmKeepsFiles(s: State, removed: bool, cleared: bool, name: string)
    ensures var after := Confirm(s, removed, cleared).files;
            if removed && s.backupBinary != "" && name == s.backupBinary then name !in after else SameFile(after, s.files, name)
  {}

  /** The step does not roll back. */
  predicate Stays(s: State, a: Action) {
    !a.DoApply? && !a.DoRollback? && !(a.DogFires? && a.dog < |s.dogs| && !s.dogs[a.dog].gone && s.dogs[a.dog].deadline <= a.at)
  }

  predicate AllStay(s: State, actions: seq<Action>)
    decreases |actions|
  {
    actions != [] ==> Stays(s, actions[0]) && AllStay(Next(s, actions[0]), actions[1..])
  }

  lemma {:induction false} StayingKeepsBinary(s: State, actions: seq<Action>)
    requires OneBackup(s) && AllStay(s, actions)
    ensures OneBackup(Run(s, actions)) && SameFile(Run(s, actions).files, s.files, BIN)
    decreases |actions|
  {
    if actions != [] {
      var a := actions[0];
      BackupStep(s, a);
      assert SameFile(Next(s, a).files, s.files, BIN) by {
        assert |BIN| != |BAK|;
        if a.DoConfirm? { ConfirmKeepsFiles(s, a.removed, a.cleared, BIN); }
      }
      hide Next;
      StayingKeepsBinary(Next(s, a), actions[1..]);
    }
  }

  /** The point of the protocol: apply a binary, restart, wait, and confirm before any rollback. The new binary
      is then installed, and it stays through every apply-free continuation exactly when the confirm removed the
      backup or none was left. */
  lemma ConfirmedBinaryStays(s: State, apply: Action, actions: seq<Action>, removed: bool, cleared: bool)
    requires OneBackup(s) && apply.DoApply? && ApplySucceeds(s, apply.outcome) && AllStay(Next(s, apply), actions)
    ensures var e := Run(Next(s, apply), actions);
            var confirmed := Confirm(e, removed, cleared);
            && BIN in confirmed.files && confirmed.files[BIN] == apply.newBinary
            && ((forall more :: NoApply(more) ==> BIN in Run(confirmed, more).files && Run(confirmed, more).files[BIN] == apply.newBinary)
                <==> (removed && e.backupBinary == BAK) || BAK !in e.files)
  {
    var s1 := Next(s, apply);
    ApplyInstalls(s, apply.version, apply.current, apply.newBinary, apply.outcome, apply.at);
    BackupStep(s, apply);
    hide Next;
    StayingKeepsBinary(s1, actions);
    var e := Run(s1, actions);
    var confirmed := Confirm(e, removed, cleared);
    assert |BIN| != |BAK|;
    ConfirmKeepsFiles(e, removed, cleared, BIN);
    ConfirmSettlesIff(e, removed, cleared);
    hide Run, Confirm;
    if BinarySettled(confirmed) {
      forall more | NoApply(more) ensures BIN in Run(confirmed, more).files && Run(confirmed, more).files[BIN] == apply.newBinary {}
    }
  }

  /** The update will not come back: no apply-free continuation makes one pending again. */
  ghost predicate Forgotten(s: State) { forall more :: NoApply(more) ==> Run(s, more).pendingVersion == "" }

  predicate Restorable(p: Option<Pending>) { p.Some? && p.value.version != "" && p.value.backup != "" }

  lemma {:induction false} NothingComesBack(s: State, more: seq<Action>)
    requires s.pendingVersion == "" && !Restorable(s.stateFile) && NoApply(more)
    ensures Run(s, more).pendingVersion == ""
    decreases |more|
  {
    if more != [] { NothingComesBack(Next(s, more[0]), more[1..]); }
  }

  /** A confirm ends the update for good exactly when it cleared the state file, or that held no update. */
  lemma ConfirmForgetsIff(s: State, removed: bool, cleared: bool)
    ensures var s' := Confirm(s, removed, cleared);
            && s'.pendingVersion == "" && s'.previousVersion == "" && s'.backupBinary == ""
            && (Forgotten(s') <==> cleared || !Restorable(s.stateFile))
  {
    ForgottenIff(Confirm(s, removed, cleared));
  }

  /** So does a rollback whose copy succeeds. */
  lemma RollbackForgetsIff(s: State, torn: string, cleared: bool)
    requires RollbackSource(s) in s.files
    ensures var s' := Rollback(s, true, torn, cleared);
            && s'.pendingVersion == "" && s'.previousVersion == "" && s'.backupBinary == ""
            && (Forgotten(s') <==> cleared || !Restorable(s.stateFile))
  {
    ForgottenIff(Rollback(s, true, torn, cleared));
  }

  lemma ForgottenIff(s: State)
    requires s.pendingVersion == ""
    ensures Forgotten(s) <==> !Restorable(s.stateFile)
  {
    if !Restorable(s.stateFile) {
      forall more | NoApply(more) ensures Run(s, more).pendingVersion == "" { NothingComesBack(s, more); }
    } else {
      var back := DoRestart(true, 0);
      RunOne(s, back);
      assert NoApply([back]) && Run(s, [back]).pendingVersion == s.stateFile.value.version;
    }
  }

  /** A confirm, and a rollback, leave no watchdog live that the service knew of. */
  lemma EndStopsWatchdog(s: State, removed: bool, copied: bool, torn: string, cleared: bool)
    requires Solo(s)
    ensures Quiet(Confirm(s, removed, cleared)) && Quiet(Rollback(s, copied, torn, cleared))
  {}

  // ---------- Runs that fail the natural claims ----------

  function Installed(binary: string): State { State(map[BIN := binary], None, 0, "", "", "", None, []) }

  const GOOD := ApplyOutcome(true, true, true, true, true, "", true, "", true, true, true, true, "")

  lemma RunOne(s: State, a: Action)
    ensures Run(s, [a]) == Next(s, a)
  {
    assert [a][1..] == [];
  }

  lemma RunTwo(s: State, a: Action, b: Action)
    ensures Run(s, [a, b]) == Next(Next(s, a), b)
  {
    assert [a, b][1..] == [b];
    RunOne(Next(s, a), b);
  }

  const FIRST := DoApply("v1", "v0", "new", GOOD, 0)
  const FAILING := DoApply("v2", "v0", "newer", GOOD.(install := false, torn := "x"), 10)
  const EXPIRY := DogFires(0, 60, true, "", true)

  lemma FirstApplied()
    ensures var s := Next(Installed("old"), FIRST);
            s == State(map[BIN := "new", BAK := "old"], Some(Pending("v1", "v0", BAK, 0)), 0, "v1", "v0", BAK, Some(0), [Dog(60, false, false)])
  {
    assert |BIN| != |BAK|;
  }

  lemma FailingApplied(s: State)
    requires BIN in s.files
    ensures Next(s, FAILING) == s.(files := s.files[BAK := s.files[BIN]]) && BackupWritten(s, FAILING) == Some(s.files[BIN])
  {
    assert |BIN| != |BAK|;
    var backed := s.files[BAK := s.files[BIN]];
    assert backed[BIN := "x"][BIN := s.files[BIN]] == backed;
  }

  /** An attempt that fails while an update is pending overwrites the backup with the unconfirmed binary
      first: at the deadline the watchdog then "restores" the update itself, although no two successful
      applies overlap. */
  lemma FailedApplySpoilsBackup()
    ensures var s := Installed("old");
            var mid := Run(s, [FIRST, FAILING]);
            && OneBackup(s) && NoOverlap(s, [FIRST, FAILING]) && RollsBack(mid, EXPIRY)
            && BIN in Next(mid, EXPIRY).files && Next(mid, EXPIRY).files[BIN] == "new"
    ensures LastBackup(Next(Installed("old"), FIRST), [FAILING]) == Some("new")
  {
    FirstApplied();
    var s, s1 := Installed("old"), Next(Installed("old"), FIRST);
    FailingApplied(s1);
    RunTwo(s, FIRST, FAILING);
    RollbackCopies(Next(s1, FAILING), EXPIRY) by { assert RollsBack(Next(s1, FAILING), EXPIRY); }
    assert [FIRST, FAILING][1..] == [FAILING] && [FAILING][1..] == [];
    hide Next, BackupWritten;
    assert NoOverlap(Next(s1, FAILING), []);
    assert NoOverlap(s1, [FAILING]);
  }

  /** A confirm that cannot remove the backup leaves it for a late rollback, which undoes the confirmed update. */
  lemma UnremovedBackupUndoesConfirm()
    ensures var s := Next(Installed("old"), FIRST);
            var confirmed := Confirm(s, false, true);
            && confirmed.files[BIN] == "new" && confirmed.pendingVersion == "" && !BinarySettled(confirmed)
            && Next(confirmed, EXPIRY).files[BIN] == "old"
  {
    assert |BIN| != |BAK|;
    var s := Next(Installed("old"), FIRST);
    FirstApplied();
    ConfirmSettlesIff(s, false, true);
  }

  /** Two applies within a minute: the first one's watchdog, which nothing can cancel any more, rolls the
      second update back 50 seconds before its own deadline. */
  lemma StrayWatchdogStrikesEarly()
    ensures var s := Next(Next(Installed("old"), FIRST), DoApply("v2", "v0", "newer", GOOD, 50));
            && !Solo(s) && s.files[BIN] == "newer" && s.pendingVersion == "v2" && s.stateFile.Some?
            && Deadline(s.startedAt, s.stateFile.value.appliedAt) == 110
            && var end := Next(s, EXPIRY); end.files[BIN] == "new" && end.pendingVersion == ""
  {
    assert |BIN| != |BAK|;
    var s1 := Next(Installed("old"), FIRST);
    FirstApplied();
    var s := Next(s1, DoApply("v2", "v0", "newer", GOOD, 50));
    assert s.files == map[BIN := "newer", BAK := "new"] && s.dogs == [Dog(60, false, false), Dog(110, false, false)];
    assert Live(s.dogs[0]) && s.cancel == Some(1);
  }

  /** An expiry whose copy fails: the update stays pending and nobody watches it any more. */
  lemma FailedRollbackStrands()
    ensures var s := Next(Next(Installed("old"), FIRST), DogFires(0, 60, false, "x", true));
            s.pendingVersion == "v1" && s.cancel.None? && Quiet(s) && !Guarded(s)
  {
    FirstApplied();
    assert |BIN| != |BAK|;
  }
}
