/**
 A migration run over a list of items, one after the other, stopping at the first failure; and
 what it means to interrupt such a run anywhere and start it again.
 */
module MigrationBatch {
  import opened MigrationProtocol

  /** What information_schema answers to a precondition, given the contents executed so far. */
  type Schema = (seq<Execution>, Precondition) -> int

  /* ---------- one item without faults ---------- */

  function Check(item: Item, i: nat, log: seq<Execution>, schema: Schema): (phase: Phase)
    requires i <= |item.preconditions|
    ensures phase.Submitting? || phase.Failed?
    decreases |item.preconditions| - i
  {
    if i == |item.preconditions| then Submitting
    else if item.preconditions[i].ColumnNotExists? && schema(log, item.preconditions[i]) > 0 then
      Failed(PreconditionFailed(item.preconditions[i]))
    else Check(item, i + 1, log, schema)
  }

  /** The effect and the result of one item when no command is lost or refused. */
  function Perform(data: Data, item: Item, baseline: bool, schema: Schema): (r: (Data, Phase))
    ensures r.1.Finished()
  {
    var existing := Existing(data, item.key);
    var checked := if baseline then Submitting else Check(item, 0, data.log, schema);
    if existing != "" then
      (data, if existing != item.checksum then Failed(ChecksumMismatch)
             else Done(if baseline then BaselineAlreadyRecorded else AlreadyApplied))
    else if checked.Failed? then (data, checked)
    else if item.key in data.history || |item.checksum| > COLUMN_WIDTH then (data, Failed(CommandFailed))
    else (Commit(data, item, baseline), Done(if baseline then Baselined else Applied))
  }

  /** No column that must not exist yet does, by what the server answers. */
  predicate Met(item: Item, from: nat, log: seq<Execution>, schema: Schema) {
    forall i | from <= i < |item.preconditions| && item.preconditions[i].ColumnNotExists? :: schema(log, item.preconditions[i]) <= 0
  }

  /** The first precondition that is not met stops an item. */
  lemma {:induction false} CheckExactly(item: Item, i: nat, log: seq<Execution>, schema: Schema)
    requires i <= |item.preconditions|
    ensures Check(item, i, log, schema).Submitting? <==> Met(item, i, log, schema)
    ensures Check(item, i, log, schema).Failed? ==> exists k | i <= k < |item.preconditions| ::
      && item.preconditions[k].ColumnNotExists? && schema(log, item.preconditions[k]) > 0
      && Check(item, i, log, schema) == Failed(PreconditionFailed(item.preconditions[k]))
      && forall j | i <= j < k :: item.preconditions[j].ColumnNotExists? ==> schema(log, item.preconditions[j]) <= 0
    decreases |item.preconditions| - i
  {
    if i < |item.preconditions| && !(item.preconditions[i].ColumnNotExists? && schema(log, item.preconditions[i]) > 0) {
      CheckExactly(item, i + 1, log, schema);
    }
  }

  /**
   What becomes of an item, told by what is recorded under its key and what the server answers: found with its checksum
   or with another one, stopped by a precondition, refused, or carried out.
   */
  lemma PerformExactly(data: Data, item: Item, baseline: bool, schema: Schema)
    ensures var (data', phase) := Perform(data, item, baseline, schema);
            var recorded := item.key in data.history;
            var seen := recorded && Visible(data.history[item.key].checksum);
            var same := seen && data.history[item.key].checksum == item.checksum;
            var met := baseline || Met(item, 0, data.log, schema);
            && (phase == Done(AlreadyApplied) <==> !baseline && same)
            && (phase == Done(BaselineAlreadyRecorded) <==> baseline && same)
            && (phase == Failed(ChecksumMismatch) <==> seen && !same)
            && (phase.Failed? && phase.reason.PreconditionFailed? <==> !seen && !met)
            && (phase == Failed(CommandFailed) <==> !seen && met && (recorded || |item.checksum| > 64))
            && (phase == Done(Applied) <==> !baseline && !recorded && met && |item.checksum| <= 64)
            && (phase == Done(Baselined) <==> baseline && !recorded && |item.checksum| <= 64)
            && (phase == Done(Applied) ==>
                  data' == Data(data.history[item.key := Row(item.assetID, item.checksum, RowApplied)],
                                data.log + [Execution(item.key, item.assetID, item.checksum, item.content)]))
            && (phase == Done(Baselined) ==>
                  data' == Data(data.history[item.key := Row(item.assetID, item.checksum, RowBaseline)], data.log))
            && (phase != Done(Applied) && phase != Done(Baselined) ==> data' == data)
  {
    CheckExactly(item, 0, data.log, schema);
  }

  /* ---------- one item with faults ---------- */

  /** A run alone on the server: its commands meet these outcomes, in order. */
  function Drive(run: Run, db: Database, outcomes: seq<Outcome>): (r: (Run, Database))
    requires WellFormed(run)
    ensures WellFormed(r.0)
  {
    if outcomes == [] then (run, db)
    else
      var (run', db') := Drive(run, db, outcomes[..|outcomes| - 1]);
      Step(run', db', outcomes[|outcomes| - 1], true)
  }

  /** Precondition queries are answered from the contents executed so far. */
  ghost predicate Honest(run: Run, db: Database, outcomes: seq<Outcome>, schema: Schema)
    requires WellFormed(run)
  {
    forall i | 0 <= i < |outcomes| :: HonestAt(run, db, outcomes, i, schema)
  }

  predicate HonestAt(run: Run, db: Database, outcomes: seq<Outcome>, i: nat, schema: Schema)
    requires WellFormed(run) && i < |outcomes|
  {
    var (run', db') := Drive(run, db, outcomes[..i]);
    run'.phase.Checking? ==> outcomes[i].count == schema(db'.data.log, run'.item.preconditions[run'.phase.index])
  }

  /** What holds between the faulty run so far and the fault-free one. */
  ghost predicate Tracks(run: Run, data: Data, start: Data, schema: Schema) {
    var (data', phase') := Perform(start, run.item, run.baseline, schema);
    && WellFormed(run)
    && (data == start || (data == data' && phase'.Done? && data' == Commit(start, run.item, run.baseline)))
    && match run.phase
       case Ensuring => data == start
       case Querying => data == start
       case Checking(i) =>
         && data == start && Existing(start, run.item.key) == "" && !run.baseline
         && run.item.preconditions[i].ColumnNotExists?
         && Check(run.item, 0, start.log, schema) == Check(run.item, i, start.log, schema)
       case Submitting =>
         && Existing(start, run.item.key) == ""
         && (run.baseline || Check(run.item, 0, start.log, schema) == Submitting)
       case Done(_) => data == data' && run.phase == phase'
       case Failed(reason) =>
         reason.ChecksumMismatch? || reason.PreconditionFailed? ==> data == start && run.phase == phase'
  }

  lemma {:induction false} NextCheckSkips(item: Item, i: nat, log: seq<Execution>, schema: Schema)
    requires i <= |item.preconditions|
    ensures var phase := NextCheck(item, i);
            Check(item, i, log, schema) == if phase.Checking? then Check(item, phase.index, log, schema) else Submitting
    decreases |item.preconditions| - i
  {
    if i < |item.preconditions| && item.preconditions[i].Unsupported? {
      NextCheckSkips(item, i + 1, log, schema);
    }
  }

  lemma {:induction false} StepTracks(run: Run, db: Database, o: Outcome, start: Data, schema: Schema)
    requires Tracks(run, db.data, start, schema)
    requires run.phase.Checking? ==> o.count == schema(db.data.log, run.item.preconditions[run.phase.index])
    ensures var (run', db') := Step(run, db, o, true);
            Tracks(run', db'.data, start, schema) && run'.item == run.item && run'.baseline == run.baseline
  {
    if run.phase.Checking? {
      NextCheckSkips(run.item, run.phase.index + 1, start.log, schema);
    } else {
      NextCheckSkips(run.item, 0, start.log, schema);
    }
  }

  lemma {:induction false} DriveTracks(item: Item, baseline: bool, db: Database, outcomes: seq<Outcome>, schema: Schema)
    requires Honest(Fresh(item, baseline), db, outcomes, schema)
    ensures var (run, db') := Drive(Fresh(item, baseline), db, outcomes);
            Tracks(run, db'.data, db.data, schema) && run.item == item && run.baseline == baseline
  {
    if outcomes != [] {
      var n := |outcomes| - 1;
      var shorter := outcomes[..n];
      forall i | 0 <= i < |shorter| ensures HonestAt(Fresh(item, baseline), db, shorter, i, schema) {
        assert shorter[..i] == outcomes[..i];
        assert HonestAt(Fresh(item, baseline), db, outcomes, i, schema);
      }
      DriveTracks(item, baseline, db, shorter, schema);
      assert HonestAt(Fresh(item, baseline), db, outcomes, n, schema);
      var (run, db') := Drive(Fresh(item, baseline), db, shorter);
      StepTracks(run, db', outcomes[n], db.data, schema);
    }
  }

  /* ---------- one item that nothing disturbs ---------- */

  /** Every command reaches the server and is answered; what the server refuses is not worth repeating. */
  predicate AllAnswered(outcomes: seq<Outcome>) {
    forall o | o in outcomes :: o.reached && o.heard && !o.retryable
  }

  /** How many commands a run has before it at most. */
  function Left(item: Item, phase: Phase): nat {
    match phase
    case Ensuring => 3 + |item.preconditions|
    case Querying => 2 + |item.preconditions|
    case Checking(i) => if i < |item.preconditions| then 1 + |item.preconditions| - i else 1
    case Submitting => 1
    case _ => 0
  }

  /** What holds while every command is answered: it tracks the fault-free run, and fails only as that does. */
  ghost predicate Answered(run: Run, db: Database, start: Data, schema: Schema) {
    && Tracks(run, db.data, start, schema)
    && (!run.phase.Ensuring? && !run.phase.Failed? ==> run.item.key.database in db.tables)
    && (!run.phase.Done? ==> db.data == start)
    && (run.phase.Failed? ==> run.phase == Perform(start, run.item, run.baseline, schema).1)
  }

  lemma {:induction false} AnsweredStep(run: Run, db: Database, o: Outcome, start: Data, schema: Schema)
    requires Answered(run, db, start, schema) && o.reached && o.heard && !o.retryable
    requires run.phase.Checking? ==> o.count == schema(db.data.log, run.item.preconditions[run.phase.index])
    ensures var (run', db') := Step(run, db, o, true);
            Answered(run', db', start, schema) && Left(run.item, run'.phase) <= if run.phase.Finished() then 0 else Left(run.item, run.phase) - 1
  {
    StepTracks(run, db, o, start, schema);
    if run.phase.Checking? {
      NextCheckSkips(run.item, run.phase.index + 1, start.log, schema);
    } else {
      NextCheckSkips(run.item, 0, start.log, schema);
    }
  }

  lemma {:induction false} DriveAnswered(item: Item, baseline: bool, db: Database, outcomes: seq<Outcome>, schema: Schema)
    requires Honest(Fresh(item, baseline), db, outcomes, schema) && AllAnswered(outcomes)
    ensures var (run, db') := Drive(Fresh(item, baseline), db, outcomes);
            && Answered(run, db', db.data, schema) && run.item == item && run.baseline == baseline
            && Left(item, run.phase) <= if |outcomes| > 3 + |item.preconditions| then 0 else 3 + |item.preconditions| - |outcomes|
  {
    if outcomes != [] {
      var n := |outcomes| - 1;
      var shorter := outcomes[..n];
      forall i | 0 <= i < |shorter| ensures HonestAt(Fresh(item, baseline), db, shorter, i, schema) {
        assert shorter[..i] == outcomes[..i];
        assert HonestAt(Fresh(item, baseline), db, outcomes, i, schema);
      }
      assert forall o | o in shorter :: o in outcomes;
      DriveAnswered(item, baseline, db, shorter, schema);
      assert HonestAt(Fresh(item, baseline), db, outcomes, n, schema);
      var (run, db') := Drive(Fresh(item, baseline), db, shorter);
      assert outcomes[n] in outcomes;
      AnsweredStep(run, db', outcomes[n], db.data, schema);
      StepTracks(run, db', outcomes[n], db.data, schema);
    }
  }

  /**
   A run whose commands are all answered ends, after at most three and one for each precondition, with exactly the
   effect and the result of the fault-free one.
   */
  lemma AnsweredRunPerforms(item: Item, baseline: bool, db: Database, outcomes: seq<Outcome>, schema: Schema)
    requires Honest(Fresh(item, baseline), db, outcomes, schema) && AllAnswered(outcomes)
    requires |outcomes| >= 3 + |item.preconditions|
    ensures var (run, db') := Drive(Fresh(item, baseline), db, outcomes);
            (db'.data, run.phase) == Perform(db.data, item, baseline, schema)
  {
    DriveAnswered(item, baseline, db, outcomes, schema);
  }

  /* ---------- a list of items ---------- */

  datatype Report = Report(data: Data, phases: seq<Phase>)

  /** The uninterrupted run: performs the items in order and stops at the first failure. */
  function Batch(data: Data, items: seq<Item>, baseline: bool, schema: Schema): (r: Report)
    ensures |r.phases| <= |items|
    decreases |items|
  {
    if items == [] then Report(data, [])
    else
      var (data', phase) := Perform(data, items[0], baseline, schema);
      if phase.Failed? then Report(data', [phase])
      else
        var rest := Batch(data', items[1..], baseline, schema);
        Report(rest.data, [phase] + rest.phases)
  }

  predicate Succeeded(r: Report, items: seq<Item>) {
    |r.phases| == |items| && forall p | p in r.phases :: p.Done?
  }

  /**
   A run that meets these outcomes, one list per item.  It ends at the first item that is not
   done, be it failed or killed half-way, and before an item for which there is no list.
   */
  function Interrupted(db: Database, items: seq<Item>, baseline: bool, outcomes: seq<seq<Outcome>>): (r: (Database, seq<Phase>))
    ensures |r.1| <= |items|
    decreases |items|
  {
    if items == [] || outcomes == [] then (db, [])
    else
      var (run, db') := Drive(Fresh(items[0], baseline), db, outcomes[0]);
      if !run.phase.Done? then (db', [run.phase])
      else
        var (db'', phases) := Interrupted(db', items[1..], baseline, outcomes[1..]);
        (db'', [run.phase] + phases)
  }

  ghost predicate HonestBatch(db: Database, items: seq<Item>, baseline: bool, outcomes: seq<seq<Outcome>>, schema: Schema)
    decreases |items|
  {
    items == [] || outcomes == [] ||
    (Honest(Fresh(items[0], baseline), db, outcomes[0], schema) &&
     HonestBatch(Drive(Fresh(items[0], baseline), db, outcomes[0]).1, items[1..], baseline, outcomes[1..], schema))
  }

  /** The data holds exactly the effects of the first n items. */
  predicate Holds(data: Data, items: seq<Item>, baseline: bool, schema: Schema, n: nat, data': Data)
    requires n <= |items|
    decreases n
  {
    if n == 0 then data' == data
    else
      var (data1, phase) := Perform(data, items[0], baseline, schema);
      phase.Done? && Holds(data1, items[1..], baseline, schema, n - 1, data')
  }

  function DoneCount(phases: seq<Phase>): (n: nat)
    ensures n <= |phases|
  {
    if phases == [] || !phases[0].Done? then 0 else 1 + DoneCount(phases[1..])
  }

  /**
   Wherever a run is interrupted, the database holds exactly the effects of the items it reported
   done - or of one more, whose script was carried out without the run hearing of it.
   */
  lemma {:induction false} InterruptedHoldsAPrefix(db: Database, items: seq<Item>, baseline: bool,
                                                   outcomes: seq<seq<Outcome>>, schema: Schema) returns (n: nat)
    requires HonestBatch(db, items, baseline, outcomes, schema)
    ensures var (db', phases) := Interrupted(db, items, baseline, outcomes);
            && n <= |items| && (n == DoneCount(phases) || n == DoneCount(phases) + 1)
            && Holds(db.data, items, baseline, schema, n, db'.data)
    decreases |items|
  {
    if items == [] || outcomes == [] {
      n := 0;
    } else {
      DriveTracks(items[0], baseline, db, outcomes[0], schema);
      var (run, db1) := Drive(Fresh(items[0], baseline), db, outcomes[0]);
      if run.phase.Done? {
        var m := InterruptedHoldsAPrefix(db1, items[1..], baseline, outcomes[1..], schema);
        n := m + 1;
        var (db', phases) := Interrupted(db1, items[1..], baseline, outcomes[1..]);
        assert ([run.phase] + phases)[1..] == phases;
      } else {
        n := if db1.data == db.data then 0 else 1;
        assert n == 1 ==> Holds(db1.data, items[1..], baseline, schema, 0, db1.data);
      }
    }
  }

  predicate AllVisible(items: seq<Item>) {
    forall x | x in items :: Visible(x.checksum)
  }

  /** Rows are only ever added. */
  lemma {:induction false} HoldsKeepsRows(data: Data, items: seq<Item>, baseline: bool, schema: Schema, n: nat, data': Data)
    requires n <= |items| && Holds(data, items, baseline, schema, n, data')
    ensures forall k | k in data.history :: k in data'.history && data'.history[k] == data.history[k]
    decreases n
  {
    if n > 0 {
      HoldsKeepsRows(Perform(data, items[0], baseline, schema).0, items[1..], baseline, schema, n - 1, data');
    }
  }

  function AlreadyRecorded(baseline: bool): Phase {
    Done(if baseline then BaselineAlreadyRecorded else AlreadyApplied)
  }

  /** An item that is done is found recorded from then on, if its checksum can be read back. */
  lemma DoneItemIsRecorded(data: Data, item: Item, baseline: bool, schema: Schema, later: Data)
    requires Perform(data, item, baseline, schema).1.Done? && Visible(item.checksum)
    requires var data1 := Perform(data, item, baseline, schema).0;
             forall k | k in data1.history :: k in later.history && later.history[k] == data1.history[k]
    ensures Perform(later, item, baseline, schema) == (later, AlreadyRecorded(baseline))
  {
  }

  /** Started again on a database that holds a prefix of the effects, the run ends where it would have ended anyway. */
  lemma {:induction false} ResumeFromPrefix(data: Data, items: seq<Item>, baseline: bool, schema: Schema, n: nat, data': Data)
    requires n <= |items| && Holds(data, items, baseline, schema, n, data') && AllVisible(items)
    ensures var again, once := Batch(data', items, baseline, schema), Batch(data, items, baseline, schema);
            && again.data == once.data
            && (Succeeded(again, items) <==> Succeeded(once, items))
    decreases n
  {
    if n > 0 {
      var (data1, phase) := Perform(data, items[0], baseline, schema);
      HoldsKeepsRows(data1, items[1..], baseline, schema, n - 1, data');
      assert items[0] in items;
      DoneItemIsRecorded(data, items[0], baseline, schema, data');
      ResumeFromPrefix(data1, items[1..], baseline, schema, n - 1, data');
      var again, once := Batch(data', items[1..], baseline, schema), Batch(data1, items[1..], baseline, schema);
      SucceededStep(AlreadyRecorded(baseline), again, items);
      SucceededStep(phase, once, items);
    }
  }

  lemma SucceededStep(phase: Phase, rest: Report, items: seq<Item>)
    requires items != [] && phase.Done?
    ensures Succeeded(Report(rest.data, [phase] + rest.phases), items) <==> Succeeded(rest, items[1..])
  {
    var phases := [phase] + rest.phases;
    assert phases[0] == phase && phases[1..] == rest.phases;
    assert forall p :: p in phases <==> p == phase || p in rest.phases;
  }

  /** After any number of interrupted runs. */
  function AfterAttempts(db: Database, items: seq<Item>, baseline: bool, attempts: seq<seq<seq<Outcome>>>): Database
    decreases |attempts|
  {
    if attempts == [] then db
    else AfterAttempts(Interrupted(db, items, baseline, attempts[0]).0, items, baseline, attempts[1..])
  }

  ghost predicate HonestAttempts(db: Database, items: seq<Item>, baseline: bool, attempts: seq<seq<seq<Outcome>>>, schema: Schema)
    decreases |attempts|
  {
    attempts == [] ||
    (HonestBatch(db, items, baseline, attempts[0], schema) &&
     HonestAttempts(Interrupted(db, items, baseline, attempts[0]).0, items, baseline, attempts[1..], schema))
  }

  /**
   Resume equals uninterrupted: however often a run was interrupted, and wherever, running it to
   its end leaves the same rows and the same executed contents as one uninterrupted run would
   have, and succeeds exactly if that one does.
   */
  lemma {:induction false} ResumeEqualsUninterrupted(db: Database, items: seq<Item>, baseline: bool,
                                                     attempts: seq<seq<seq<Outcome>>>, schema: Schema)
    requires AllVisible(items) && HonestAttempts(db, items, baseline, attempts, schema)
    ensures var db' := AfterAttempts(db, items, baseline, attempts);
            var again, once := Batch(db'.data, items, baseline, schema), Batch(db.data, items, baseline, schema);
            && again.data == once.data
            && (Succeeded(again, items) <==> Succeeded(once, items))
    decreases |attempts|
  {
    if attempts != [] {
      var db1 := Interrupted(db, items, baseline, attempts[0]).0;
      var n := InterruptedHoldsAPrefix(db, items, baseline, attempts[0], schema);
      ResumeFromPrefix(db.data, items, baseline, schema, n, db1.data);
      ResumeEqualsUninterrupted(db1, items, baseline, attempts[1..], schema);
    }
  }

  lemma {:induction false} SuccessHoldsAll(data: Data, items: seq<Item>, baseline: bool, schema: Schema)
    requires Succeeded(Batch(data, items, baseline, schema), items)
    ensures Holds(data, items, baseline, schema, |items|, Batch(data, items, baseline, schema).data)
    decreases |items|
  {
    if items != [] {
      var (data1, phase) := Perform(data, items[0], baseline, schema);
      assert Batch(data, items, baseline, schema).phases[0] == phase;
      SucceededStep(phase, Batch(data1, items[1..], baseline, schema), items);
      SuccessHoldsAll(data1, items[1..], baseline, schema);
    }
  }

  predicate AllAlreadyRecorded(r: Report, data: Data, items: seq<Item>, baseline: bool) {
    && r.data == data
    && |r.phases| == |items|
    && forall p | p in r.phases :: p == AlreadyRecorded(baseline)
  }

  lemma {:induction false} AllFound(data: Data, items: seq<Item>, baseline: bool, schema: Schema, n: nat, data': Data)
    requires n == |items| && Holds(data, items, baseline, schema, n, data') && AllVisible(items)
    ensures AllAlreadyRecorded(Batch(data', items, baseline, schema), data', items, baseline)
    decreases n
  {
    if n > 0 {
      var (data1, phase) := Perform(data, items[0], baseline, schema);
      HoldsKeepsRows(data1, items[1..], baseline, schema, n - 1, data');
      assert items[0] in items;
      DoneItemIsRecorded(data, items[0], baseline, schema, data');
      AllFound(data1, items[1..], baseline, schema, n - 1, data');
    }
  }

  lemma {:induction false} FoundIsVisible(data: Data, items: seq<Item>, baseline: bool, schema: Schema)
    requires AllAlreadyRecorded(Batch(data, items, baseline, schema), data, items, baseline)
    ensures AllVisible(items)
    decreases |items|
  {
    if items != [] {
      var r := Batch(data, items, baseline, schema);
      var (data1, phase) := Perform(data, items[0], baseline, schema);
      assert r.phases[0] == phase;
      assert r.phases[0] in r.phases;
      var rest := Batch(data1, items[1..], baseline, schema);
      assert r.phases[1..] == rest.phases;
      assert forall p | p in rest.phases :: p in r.phases;
      FoundIsVisible(data1, items[1..], baseline, schema);
      forall x | x in items ensures Visible(x.checksum) {
        assert x == items[0] || x in items[1..];
      }
    }
  }

  /**
   Running once more after a success changes nothing and reports every item as already recorded
   if and only if every checksum consists of 64 hex digits.
   */
  lemma RerunFindsEverythingRecorded(data: Data, items: seq<Item>, baseline: bool, schema: Schema)
    requires Succeeded(Batch(data, items, baseline, schema), items)
    ensures var data' := Batch(data, items, baseline, schema).data;
            AllAlreadyRecorded(Batch(data', items, baseline, schema), data', items, baseline) <==> AllVisible(items)
  {
    var data' := Batch(data, items, baseline, schema).data;
    if AllVisible(items) {
      SuccessHoldsAll(data, items, baseline, schema);
      AllFound(data, items, baseline, schema, |items|, data');
    }
    if AllAlreadyRecorded(Batch(data', items, baseline, schema), data', items, baseline) {
      FoundIsVisible(data', items, baseline, schema);
    }
  }

  /* ---------- runs with retries that reach their end ---------- */

  /** A run, with whatever retries its outcomes made necessary, that did all its items. */
  predicate Completed(db: Database, items: seq<Item>, baseline: bool, outcomes: seq<seq<Outcome>>) {
    var phases := Interrupted(db, items, baseline, outcomes).1;
    |phases| == |items| && forall p | p in phases :: p.Done?
  }

  /** Such a run leaves the data and reports the phases of the run that nothing disturbed. */
  lemma {:induction false} CompletedRunIsTheBatch(db: Database, items: seq<Item>, baseline: bool, outcomes: seq<seq<Outcome>>, schema: Schema)
    requires HonestBatch(db, items, baseline, outcomes, schema) && Completed(db, items, baseline, outcomes)
    ensures var (db', phases) := Interrupted(db, items, baseline, outcomes);
            Batch(db.data, items, baseline, schema) == Report(db'.data, phases) && Succeeded(Report(db'.data, phases), items)
    decreases |items|
  {
    if items != [] {
      var (run, db1) := Drive(Fresh(items[0], baseline), db, outcomes[0]);
      var phases := Interrupted(db, items, baseline, outcomes).1;
      assert phases[0] == run.phase && phases[0] in phases;
      assert forall p | p in phases[1..] :: p in phases;
      assert phases[1..] == Interrupted(db1, items[1..], baseline, outcomes[1..]).1;
      DriveTracks(items[0], baseline, db, outcomes[0], schema);
      CompletedRunIsTheBatch(db1, items[1..], baseline, outcomes[1..], schema);
    }
  }

  /** So a last attempt that gets through, after any others that did not, ends where one uninterrupted run would have. */
  lemma LastAttemptEqualsUninterrupted(db: Database, items: seq<Item>, baseline: bool, attempts: seq<seq<seq<Outcome>>>,
                                       last: seq<seq<Outcome>>, schema: Schema)
    requires AllVisible(items) && HonestAttempts(db, items, baseline, attempts, schema)
    requires var db1 := AfterAttempts(db, items, baseline, attempts);
             HonestBatch(db1, items, baseline, last, schema) && Completed(db1, items, baseline, last)
    ensures var db' := Interrupted(AfterAttempts(db, items, baseline, attempts), items, baseline, last).0;
            var once := Batch(db.data, items, baseline, schema);
            db'.data == once.data && Succeeded(once, items)
  {
    CompletedRunIsTheBatch(AfterAttempts(db, items, baseline, attempts), items, baseline, last, schema);
    ResumeEqualsUninterrupted(db, items, baseline, attempts, schema);
  }

  /** And a further run that gets through finds everything recorded and changes nothing, exactly if all checksums are visible. */
  lemma RealRerunFindsEverythingRecorded(db: Database, items: seq<Item>, baseline: bool, first: seq<seq<Outcome>>,
                                         again: seq<seq<Outcome>>, schema: Schema)
    requires HonestBatch(db, items, baseline, first, schema) && Completed(db, items, baseline, first)
    requires var db1 := Interrupted(db, items, baseline, first).0;
             HonestBatch(db1, items, baseline, again, schema) && Completed(db1, items, baseline, again)
    ensures var db1 := Interrupted(db, items, baseline, first).0;
            var (db2, phases) := Interrupted(db1, items, baseline, again);
            (db2.data == db1.data && forall p | p in phases :: p == AlreadyRecorded(baseline)) <==> AllVisible(items)
  {
    var db1 := Interrupted(db, items, baseline, first).0;
    CompletedRunIsTheBatch(db, items, baseline, first, schema);
    CompletedRunIsTheBatch(db1, items, baseline, again, schema);
    RerunFindsEverythingRecorded(db.data, items, baseline, schema);
  }

  /** Recorded with any other checksum, the migration is not recognised, and applying it again fails on the unique key. */
  lemma UnseenChecksumIsNotFound(data: Data, item: Item, schema: Schema)
    requires item.preconditions == [] && item.key in data.history && !Visible(item.checksum)
    requires data.history[item.key] == RowOf(item, false)
    ensures var (data', phase) := Perform(data, item, false, schema); data' == data && phase == Failed(CommandFailed)
  {
  }
}
