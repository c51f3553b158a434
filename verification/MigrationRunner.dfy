/**
 The migration run as the command performs it: loops of attempts against a session with the
 target server, tied to the step semantics of MigrationProtocol and MigrationBatch.
 */
module MigrationRunner {
  import opened MigrationProtocol
  import opened MigrationBatch

  /** The session with the target: its database, and what becomes of the commands sent one after the other. */
  class Session {
    var db: Database
    var clock: nat
    const plan: nat -> Outcome

    constructor (db: Database, plan: nat -> Outcome)
      ensures this.db == db && this.clock == 0 && this.plan == plan
    {
      this.db, this.clock, this.plan := db, 0, plan;
    }

    /** The outcomes of the commands sent between two times. */
    function Outcomes(from: nat, until: nat): (r: seq<Outcome>)
      requires from <= until
      ensures |r| == until - from
    {
      seq(until - from, i requires 0 <= i => plan(from + i))
    }

    /** Sends the command of the run's phase once. */
    method Send(run: Run) returns (ok: bool, o: Outcome)
      requires WellFormed(run) && !run.phase.Finished()
      modifies this
      ensures clock == old(clock) + 1 && o == plan(old(clock))
      ensures ok == (o.reached && o.heard && Accepts(run, old(db)))
      ensures db == if o.reached then Serve(run, old(db), true) else old(db)
    {
      o := plan(clock);
      clock := clock + 1;
      ok := o.reached && o.heard && Accepts(run, db);
      if o.reached {
        db := Serve(run, db, true);
      }
    }

    lemma OneMore(run: Run, start: Database, from: nat, until: nat)
      requires WellFormed(run) && from <= until
      ensures var (run', db') := Drive(run, start, Outcomes(from, until));
              Drive(run, start, Outcomes(from, until + 1)) == Step(run', db', plan(until), true)
    {
      assert Outcomes(from, until + 1) == Outcomes(from, until) + [plan(until)];
      DriveAppend(run, start, Outcomes(from, until), [plan(until)]);
      var (run', db') := Drive(run, start, Outcomes(from, until));
      DriveOne(run', db', plan(until));
    }

    lemma DriveFurther(run: Run, start: Database, from: nat, mid: nat, until: nat)
      requires WellFormed(run) && from <= mid <= until
      ensures var (run', db') := Drive(run, start, Outcomes(from, mid));
              Drive(run, start, Outcomes(from, until)) == Drive(run', db', Outcomes(mid, until))
    {
      assert Outcomes(from, until) == Outcomes(from, mid) + Outcomes(mid, until);
      DriveAppend(run, start, Outcomes(from, mid), Outcomes(mid, until));
    }

    /** The command failed n - 1 times and is about to be sent again. */
    function Again(run: Run, n: nat): Run
      requires n >= 1
    {
      run.(attempt := n, total := run.total + n - 1)
    }

    lemma AttemptStep(run: Run, n: nat, before: Database, o: Outcome)
      requires WellFormed(run) && !run.phase.Finished() && n >= 1
      ensures var db' := if o.reached then Serve(run, before, true) else before;
              Step(Again(run, n), before, o, true) ==
                (if o.reached && o.heard && Accepts(run, before)
                 then run.(phase := Advance(run, db'.data, o.count), attempt := 1, total := run.total + n)
                 else Retry(run.(attempt := n, total := run.total + n), o), db')
    {
    }

    /** What an attempt that ended like this tells: it succeeded, may be repeated, was cancelled, or failed for good. */
    predicate Tells(o: Outcome, attempts: nat, last: bool, failed: bool, reason: Reason) {
      if !last then o.retryable && !o.cancelled && attempts < 60
      else if !failed then o.reached && o.heard
      else if reason.Cancelled? then o.retryable && o.cancelled && attempts < 60
      else reason.CommandFailed? && (!o.retryable || attempts == 60)
    }

    /** One more attempt: whether it is the last, and how it ended or failed. */
    method Attempt(run: Run, attempts: nat, ghost start: Database, ghost from: nat)
      returns (last: bool, failed: bool, reason: Reason, count: int)
      requires WellFormed(run) && !run.phase.Finished() && run.attempt == 1 && 1 <= attempts <= MAX_ATTEMPTS && from <= clock
      requires Drive(run, start, Outcomes(from, clock)) == (Again(run, attempts), db)
      modifies this
      ensures clock == old(clock) + 1 && (!last ==> attempts < MAX_ATTEMPTS)
      ensures var (run', db') := Drive(run, start, Outcomes(from, clock));
              && db' == db
              && if !last then run' == Again(run, attempts + 1)
                 else if failed then run'.phase == Failed(reason) && run'.total == run.total + attempts
                 else run' == run.(phase := Advance(run, db.data, count), total := run.total + attempts)
      ensures Tells(plan(old(clock)), attempts, last, failed, reason)
      ensures last && !failed ==> Accepts(run, old(db))
    {
      OneMore(run, start, from, clock);
      AttemptStep(run, attempts, db, plan(clock));
      var ok, o := Send(run);
      last, failed, reason, count := true, !ok, CommandFailed, o.count;
      if !ok && o.retryable && attempts < MAX_ATTEMPTS {
        if o.cancelled {
          reason := Cancelled;
        } else {
          last := false;
        }
      }
    }

    /** One command with its up to 60 attempts, a second apart. */
    method SendWithRetry(run: Run) returns (attempts: nat, failed: bool, reason: Reason, count: int)
      requires WellFormed(run) && !run.phase.Finished() && run.attempt == 1
      modifies this
      ensures clock == old(clock) + attempts && 1 <= attempts <= MAX_ATTEMPTS
      ensures var (run', db') := Drive(run, old(db), Outcomes(old(clock), clock));
              && db' == db
              && run'.total == run.total + attempts
              && if failed then run'.phase == Failed(reason)
                 else run' == run.(phase := Advance(run, db.data, count), total := run.total + attempts)
      ensures forall t | old(clock) <= t < clock - 1 :: plan(t).retryable && !plan(t).cancelled
      ensures !failed ==> plan(clock - 1).reached && plan(clock - 1).heard
      ensures failed ==> reason == CommandFailed || reason == Cancelled
      ensures failed && reason == CommandFailed ==> !plan(clock - 1).retryable || attempts == 60
      ensures failed && reason == Cancelled ==> plan(clock - 1).retryable && plan(clock - 1).cancelled && attempts < 60
    {
      attempts := 1;
      ghost var start, from := db, clock;
      assert Outcomes(from, clock) == [];
      assert Again(run, 1) == run;
      while true
        invariant 1 <= attempts <= MAX_ATTEMPTS
        invariant clock == from + attempts - 1
        invariant forall t | from <= t < clock :: plan(t).retryable && !plan(t).cancelled
        invariant Drive(run, start, Outcomes(from, clock)) == (Again(run, attempts), db)
        decreases MAX_ATTEMPTS - attempts
      {
        var last;
        last, failed, reason, count := Attempt(run, attempts, start, from);
        if last {
          return;
        }
        attempts := attempts + 1;
      }
    }
  
    /** The history table's checksum column holds what is recorded. */
    ghost predicate ColumnsFit()
      reads this
    {
      Fits(db.data)
    }

    /** The run that started at time `from` on database `start` has become this one. */
    ghost predicate Reached(item: Item, baseline: bool, start: Database, from: nat, run: Run)
      reads this
    {
      && from <= clock && ColumnsFit()
      && Drive(Fresh(item, baseline), start, Outcomes(from, clock)) == (run, db)
    }

    ghost predicate Ended(item: Item, baseline: bool, start: Database, from: nat, total: nat, phase: Phase)
      reads this
    {
      && from <= clock && ColumnsFit() && phase.Finished()
      && var (run, db') := Drive(Fresh(item, baseline), start, Outcomes(from, clock));
         db' == db && run.phase == phase && run.total == total
    }

    /** The next command of a run: it either ends the run or takes it to its next phase. */
    method Command(run: Run, ghost start: Database, ghost from: nat) returns (total: nat, failed: bool, reason: Reason, count: int)
      requires WellFormed(run) && !run.phase.Finished() && run.attempt == 1
      requires Reached(run.item, run.baseline, start, from, run)
      modifies this
      ensures failed ==> Ended(run.item, run.baseline, start, from, total, Failed(reason))
      ensures !failed ==> Reached(run.item, run.baseline, start, from, run.(phase := Advance(run, db.data, count), total := total))
    {
      ghost var mid, db0 := clock, db;
      var attempts;
      attempts, failed, reason, count := SendWithRetry(run);
      total := run.total + attempts;
      DriveKeepsFit(run, db0, Outcomes(mid, clock));
      DriveFurther(Fresh(run.item, run.baseline), start, from, mid, clock);
    }

    lemma NextCheckAt(item: Item, i: nat)
      requires i < |item.preconditions|
      ensures NextCheck(item, i) == if item.preconditions[i].ColumnNotExists? then Checking(i) else NextCheck(item, i + 1)
    {
    }

    /** Queries one precondition. */
    method CheckPrecondition(item: Item, i: nat, soFar: nat, ghost start: Database, ghost from: nat) returns (total: nat, phase: Phase)
      requires i < |item.preconditions| && item.preconditions[i].ColumnNotExists?
      requires Reached(item, false, start, from, Run(item, false, Checking(i), 1, soFar))
      modifies this
      ensures phase.Failed? ==> Ended(item, false, start, from, total, phase)
      ensures !phase.Failed? ==> phase.Submitting? && Reached(item, false, start, from, Run(item, false, NextCheck(item, i + 1), 1, total))
    {
      var failed, reason, count;
      total, failed, reason, count := Command(Run(item, false, Checking(i), 1, soFar), start, from);
      phase := Submitting;
      if failed {
        phase := Failed(reason);
      } else if count > 0 {
        phase := Failed(PreconditionFailed(item.preconditions[i]));
      }
    }

    /** Queries the preconditions in order; stops at the first one that is not met. */
    method CheckPreconditions(item: Item, soFar: nat, ghost start: Database, ghost from: nat) returns (total: nat, phase: Phase)
      requires Reached(item, false, start, from, Run(item, false, NextCheck(item, 0), 1, soFar))
      modifies this
      ensures phase.Failed? ==> Ended(item, false, start, from, total, phase)
      ensures !phase.Failed? ==> Reached(item, false, start, from, Run(item, false, Submitting, 1, total))
    {
      total, phase := soFar, Submitting;
      for i := 0 to |item.preconditions|
        invariant phase.Submitting?
        invariant Reached(item, false, start, from, Run(item, false, NextCheck(item, i), 1, total))
      {
        NextCheckAt(item, i);
        if item.preconditions[i].ColumnNotExists? {
          total, phase := CheckPrecondition(item, i, total, start, from);
          if phase.Failed? {
            return;
          }
        }
      }
    }

    /** Ensure the history table, read the recorded checksum, check the preconditions, submit the script. */
    method RunWithHistory(item: Item, baseline: bool) returns (total: nat, phase: Phase)
      requires ColumnsFit()
      modifies this
      ensures Ended(item, baseline, old(db), old(clock), total, phase)
    {
      ghost var start, from := db, clock;
      assert Outcomes(from, clock) == [];
      var failed, reason, count;
      total, failed, reason, count := Command(Fresh(item, baseline), start, from);
      if failed {
        return total, Failed(reason);
      }
      total, failed, reason, count := Command(Run(item, baseline, Querying, 1, total), start, from);
      if failed {
        return total, Failed(reason);
      }
      RecordedChecksumIsRead(db.data, item.key);
      var existing := ChecksumFromOutput(QueryOutput(db.data, item.key));
      if existing != "" {
        if existing != item.checksum {
          return total, Failed(ChecksumMismatch);
        }
        return total, Done(if baseline then BaselineAlreadyRecorded else AlreadyApplied);
      }
      if !baseline {
        total, phase := CheckPreconditions(item, total, start, from);
        if phase.Failed? {
          return;
        }
      }
      total, failed, reason, count := Command(Run(item, baseline, Submitting, 1, total), start, from);
      if failed {
        return total, Failed(reason);
      }
      return total, Done(if baseline then Baselined else Applied);
    }

    /** Runs the items in order, noting each result in place, and stops at the first failure. */
    method ExecuteTarget(items: seq<Item>, baseline: bool, report: array<Phase>) returns (ok: bool, ghost outcomes: seq<seq<Outcome>>)
      requires ColumnsFit() && report.Length == |items|
      modifies this, report
      ensures var (db', phases) := Interrupted(old(db), items, baseline, outcomes);
              && db' == db
              && report[..|phases|] == phases
              && (forall i | |phases| <= i < |items| :: report[i] == old(report[i]))
              && (ok <==> |phases| == |items| && forall p | p in phases :: p.Done?)
    {
      outcomes := [];
      ghost var start := db;
      var index := 0;
      while index < |items|
        invariant 0 <= index <= |items| && |outcomes| == index
        invariant ColumnsFit()
        invariant Interrupted(start, items[..index], baseline, outcomes) == (db, report[..index])
        invariant forall p | p in report[..index] :: p.Done?
        invariant forall i | index <= i < |items| :: report[i] == old(report[i])
      {
        ghost var before, from, done := db, clock, report[..index];
        var total, phase := RunWithHistory(items[index], baseline);
        report[index] := phase;
        InterruptedFurther(start, items, baseline, outcomes, index, Outcomes(from, clock), before, done);
        outcomes := outcomes + [Outcomes(from, clock)];
        assert report[..index + 1] == done + [phase];
        index := index + 1;
        if phase.Failed? {
          assert report[..index][index - 1] == phase && phase in report[..index];
          return false, outcomes;
        }
      }
      assert items[..index] == items;
      return true, outcomes;
    }
  }

  lemma {:induction false} DriveAppend(run: Run, db: Database, a: seq<Outcome>, b: seq<Outcome>)
    requires WellFormed(run)
    ensures var (run', db') := Drive(run, db, a); Drive(run, db, a + b) == Drive(run', db', b)
    decreases |b|
  {
    if b == [] {
      assert a + b == a;
    } else {
      var n := |b| - 1;
      assert (a + b)[..|a| + n] == a + b[..n];
      DriveAppend(run, db, a, b[..n]);
    }
  }

  lemma DriveOne(run: Run, db: Database, o: Outcome)
    requires WellFormed(run)
    ensures Drive(run, db, [o]) == Step(run, db, o, true)
  {
    assert [o][..0] == [] && Drive(run, db, []) == (run, db);
  }

  ghost predicate Fits(data: Data) {
    forall k | k in data.history :: |data.history[k].checksum| <= COLUMN_WIDTH
  }

  lemma StepKeepsFit(run: Run, db: Database, o: Outcome)
    requires WellFormed(run) && Fits(db.data)
    ensures Fits(Step(run, db, o, true).1.data)
  {
  }

  lemma {:induction false} DriveKeepsFit(run: Run, start: Database, outcomes: seq<Outcome>)
    requires WellFormed(run) && Fits(start.data)
    ensures Fits(Drive(run, start, outcomes).1.data)
  {
    if outcomes != [] {
      DriveKeepsFit(run, start, outcomes[..|outcomes| - 1]);
      var (run', db') := Drive(run, start, outcomes[..|outcomes| - 1]);
      StepKeepsFit(run', db', outcomes[|outcomes| - 1]);
    }
  }

  /** With the outcomes of one item, a run performs the first one. */
  lemma InterruptedOnce(start: Database, items: seq<Item>, baseline: bool, next: seq<Outcome>)
    requires items != []
    ensures var (run, db') := Drive(Fresh(items[0], baseline), start, next);
            Interrupted(start, items, baseline, [next]) == (db', [run.phase])
  {
    var (run, db') := Drive(Fresh(items[0], baseline), start, next);
    assert [next][1..] == [] && [next][0] == next;
    assert Interrupted(db', items[1..], baseline, []) == (db', []);
    assert [run.phase] + [] == [run.phase];
  }

  /** A run over the first n items that is not stopped goes on with the next item. */
  lemma {:induction false} InterruptedFurther(start: Database, items: seq<Item>, baseline: bool, outcomes: seq<seq<Outcome>>,
                                              n: nat, next: seq<Outcome>, db: Database, done: seq<Phase>)
    requires n < |items| && |outcomes| == n
    requires Interrupted(start, items[..n], baseline, outcomes) == (db, done)
    requires |done| == n && forall p | p in done :: p.Done?
    ensures var (run, db') := Drive(Fresh(items[n], baseline), db, next);
            && Interrupted(start, items[..n + 1], baseline, outcomes + [next]) == (db', done + [run.phase])
            && (!run.phase.Done? ==> Interrupted(start, items, baseline, outcomes + [next]) == (db', done + [run.phase]))
    decreases n
  {
    if n == 0 {
      var (run, _) := Drive(Fresh(items[0], baseline), start, next);
      assert outcomes + [next] == [next] && items[..1] == [items[0]] && done + [run.phase] == [run.phase];
      InterruptedOnce(start, [items[0]], baseline, next);
      InterruptedOnce(start, items, baseline, next);
    } else {
      var (run, db1) := Drive(Fresh(items[0], baseline), start, outcomes[0]);
      assert done[0] == run.phase;
      assert done[0] in done;
      assert items[..n][1..] == items[1..][..n - 1];
      assert items[..n + 1][1..] == items[1..][..n];
      assert (outcomes + [next])[1..] == outcomes[1..] + [next];
      var rest := Interrupted(db1, items[1..][..n - 1], baseline, outcomes[1..]).1;
      assert done == [run.phase] + rest;
      assert done[1..] == rest;
      InterruptedFurther(db1, items[1..], baseline, outcomes[1..], n - 1, next, db, rest);
      assert [run.phase] + (rest + [Drive(Fresh(items[n], baseline), db, next).0.phase])
          == done + [Drive(Fresh(items[n], baseline), db, next).0.phase];
    }
  }
}
