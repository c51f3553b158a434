/**
 Any number of apply, baseline and restore runs against one server, their steps interleaved in
 any order.  `authors` is a history variable: which run wrote the row of a key.
 */
module MigrationSystem {
  import opened MigrationProtocol

  datatype System = System(db: Database, runs: seq<Run>, authors: map<Key, nat>)

  /** The next step: which run moves, and what becomes of its command. */
  datatype Event = Event(run: nat, outcome: Outcome)

  function Executions(log: seq<Execution>, key: Key): nat {
    if log == [] then 0
    else Executions(log[..|log| - 1], key) + if log[|log| - 1].key == key then 1 else 0
  }

  /** The content of a key ran once if its row says applied, never if it says baseline or is missing. */
  ghost predicate ExactlyOnce(data: Data) {
    && (forall k | k in data.history ::
          Executions(data.log, k) == if data.history[k].status == RowApplied then 1 else 0)
    && (forall k | k !in data.history :: Executions(data.log, k) == 0)
    && (forall e | e in data.log ::
          e.key in data.history && data.history[e.key] == Row(e.assetID, e.checksum, RowApplied))
  }

  ghost predicate Initial(s: System) {
    && ExactlyOnce(s.db.data)
    && (forall r | r in s.runs :: r == Fresh(r.item, r.baseline))
    && s.authors == map[]
  }

  function Next(s: System, e: Event, atomic: bool): System
    requires forall r | r in s.runs :: WellFormed(r)
  {
    if e.run >= |s.runs| then s
    else
      var (run, db) := Step(s.runs[e.run], s.db, e.outcome, atomic);
      var key := run.item.key;
      System(db, s.runs[e.run := run],
             if key in db.data.history && key !in s.db.data.history then s.authors[key := e.run] else s.authors)
  }

  function Execute(s: System, schedule: seq<Event>, atomic: bool): (s': System)
    requires forall r | r in s.runs :: WellFormed(r)
    ensures forall r | r in s'.runs :: WellFormed(r)
    ensures |s'.runs| == |s.runs|
  {
    if schedule == [] then s
    else Next(Execute(s, schedule[..|schedule| - 1], atomic), schedule[|schedule| - 1], atomic)
  }

  /* ---------- the invariant ---------- */

  /** How many of its commands a run has behind it. */
  function Stage(phase: Phase): nat {
    match phase
    case Ensuring => 0
    case Querying => 1
    case Checking(i) => 2 + i
    case _ => 2
  }

  function MaxTotal(item: Item): nat {
    MAX_ATTEMPTS * (3 + |item.preconditions|)
  }

  /** The attempts a run has made stay within 60 for each command it has reached. */
  predicate WithinBudget(run: Run) {
    && 1 <= run.attempt <= MAX_ATTEMPTS
    && match run.phase
       case Submitting => run.total + 1 <= MAX_ATTEMPTS * (2 + |run.item.preconditions|) + run.attempt
       case Done(_) => run.total <= MaxTotal(run.item)
       case Failed(_) => run.total <= MaxTotal(run.item)
       case _ => run.total + 1 <= MAX_ATTEMPTS * Stage(run.phase) + run.attempt
  }

  /** What a run knows about the database at each phase. */
  ghost predicate RunSound(i: nat, run: Run, s: System) {
    var key, history := run.item.key, s.db.data.history;
    && WellFormed(run)
    && WithinBudget(run)
    && (!run.phase.Ensuring? && !run.phase.Failed? ==> key.database in s.db.tables)
    && (run.phase.Checking? ==> !run.baseline)
    && (run.phase == Done(Applied) || run.phase == Done(Baselined) ==>
          && (run.phase == Done(Baselined) <==> run.baseline)
          && key in history && history[key] == RowOf(run.item, run.baseline)
          && key in s.authors && s.authors[key] == i)
    && (run.phase == Done(AlreadyApplied) || run.phase == Done(BaselineAlreadyRecorded) ==>
          && (run.phase == Done(BaselineAlreadyRecorded) <==> run.baseline)
          && key in history && Existing(s.db.data, key) == run.item.checksum)
  }

  ghost predicate Invariant(s: System) {
    && ExactlyOnce(s.db.data)
    && (forall k | k in s.authors :: k in s.db.data.history && s.authors[k] < |s.runs|)
    && (forall i | 0 <= i < |s.runs| :: RunSound(i, s.runs[i], s))
  }

  /** Nothing written is ever changed or removed. */
  ghost predicate Extends(s: System, s': System) {
    && s.db.tables <= s'.db.tables
    && (forall k | k in s.db.data.history :: k in s'.db.data.history && s'.db.data.history[k] == s.db.data.history[k])
    && s.db.data.log <= s'.db.data.log
    && (forall k | k in s.authors :: k in s'.authors && s'.authors[k] == s.authors[k])
    && (forall k | k in s'.authors && k !in s.authors :: k !in s.db.data.history)
  }

  lemma CommitKeepsExactlyOnce(data: Data, item: Item, baseline: bool)
    requires ExactlyOnce(data) && item.key !in data.history
    ensures ExactlyOnce(Commit(data, item, baseline))
  {
    var data' := Commit(data, item, baseline);
    if !baseline {
      assert data'.log[..|data'.log| - 1] == data.log;
      forall k ensures Executions(data'.log, k) == Executions(data.log, k) + if k == item.key then 1 else 0 {
      }
    }
  }

  /** Rows and authors already there make a run's knowledge last. */
  lemma SoundnessIsStable(i: nat, run: Run, s: System, s': System)
    requires RunSound(i, run, s) && Extends(s, s')
    ensures RunSound(i, run, s')
  {
  }

  /** The only step that changes the data is a script for a key without a row. */
  lemma StepEffect(run: Run, db: Database, o: Outcome)
    requires WellFormed(run)
    ensures var db' := Step(run, db, o, true).1;
            && db.tables <= db'.tables
            && (db'.data == db.data ||
                (run.phase.Submitting? && run.item.key !in db.data.history && db'.data == Commit(db.data, run.item, run.baseline)))
  {
  }

  lemma StepKeepsRows(run: Run, db: Database, o: Outcome)
    requires WellFormed(run) && ExactlyOnce(db.data)
    ensures var data, data' := db.data, Step(run, db, o, true).1.data;
            && ExactlyOnce(data') && data.log <= data'.log
            && forall k | k in data.history :: k in data'.history && data'.history[k] == data.history[k]
  {
    StepEffect(run, db, o);
    if Step(run, db, o, true).1.data != db.data {
      CommitKeepsExactlyOnce(db.data, run.item, run.baseline);
    }
  }

  lemma {:induction false} NextExtends(s: System, e: Event)
    requires Invariant(s)
    ensures Extends(s, Next(s, e, true))
    ensures ExactlyOnce(Next(s, e, true).db.data)
  {
    if e.run < |s.runs| {
      StepEffect(s.runs[e.run], s.db, e.outcome);
      StepKeepsRows(s.runs[e.run], s.db, e.outcome);
    }
  }

  lemma {:induction false} MovedRunStaysInBudget(run: Run, db: Database, o: Outcome)
    requires WellFormed(run) && WithinBudget(run)
    ensures WithinBudget(Step(run, db, o, true).0)
  {
    var run' := Step(run, db, o, true).0;
    if run.phase.Checking? {
      assert MAX_ATTEMPTS * (2 + run.phase.index) + MAX_ATTEMPTS <= MAX_ATTEMPTS * (2 + |run.item.preconditions|);
    }
    assert MaxTotal(run.item) == MAX_ATTEMPTS * (2 + |run.item.preconditions|) + MAX_ATTEMPTS;
  }

  /** Where a command that succeeded can lead. */
  lemma {:induction false} AdvanceCases(run: Run, data: Data, count: int)
    requires WellFormed(run) && (run.phase.Checking? ==> !run.baseline)
    ensures var phase := Advance(run, data, count);
            && (phase.Checking? ==> !run.baseline)
            && (phase == Done(AlreadyApplied) || phase == Done(BaselineAlreadyRecorded) ==>
                  run.phase == phase || (run.phase.Querying? && run.item.key in data.history
                    && Existing(data, run.item.key) == run.item.checksum
                    && (phase == Done(BaselineAlreadyRecorded) <==> run.baseline)))
            && (phase == Done(Applied) || phase == Done(Baselined) ==>
                  run.phase == phase || (run.phase.Submitting? && (phase == Done(Baselined) <==> run.baseline)))
  {
  }

  /** A step that does not fail either repeats the phase or had its command accepted. */
  lemma StepPhase(run: Run, db: Database, o: Outcome)
    requires WellFormed(run)
    ensures var (run', db') := Step(run, db, o, true);
            && run'.item == run.item && run'.baseline == run.baseline
            && (run'.phase == run.phase || run'.phase.Failed? ||
                (Accepts(run, db) && db' == Serve(run, db, true) && run'.phase == Advance(run, db.data, o.count)))
  {
  }

  lemma {:induction false} MovedRunIsSound(s: System, e: Event)
    requires Invariant(s) && e.run < |s.runs|
    ensures var s' := Next(s, e, true); RunSound(e.run, s'.runs[e.run], s')
  {
    var run, s' := s.runs[e.run], Next(s, e, true);
    var run' := s'.runs[e.run];
    MovedRunStaysInBudget(run, s.db, e.outcome);
    StepPhase(run, s.db, e.outcome);
    NextExtends(s, e);
    SoundnessIsStable(e.run, run, s, s');
    if run'.phase != run.phase && !run'.phase.Failed? {
      AdvanceCases(run, s.db.data, e.outcome.count);
      if run.phase.Querying? {
        assert s'.db.data == s.db.data;
      }
    }
  }

  lemma {:induction false} NextKeepsInvariant(s: System, e: Event)
    requires Invariant(s)
    ensures Invariant(Next(s, e, true)) && Extends(s, Next(s, e, true))
  {
    var s' := Next(s, e, true);
    NextExtends(s, e);
    if e.run < |s.runs| {
      MovedRunIsSound(s, e);
      forall i | 0 <= i < |s'.runs| ensures RunSound(i, s'.runs[i], s') {
        if i != e.run {
          SoundnessIsStable(i, s.runs[i], s, s');
        }
      }
    }
  }

  /** The invariant holds after every schedule, and everything recorded on the way is still there. */
  lemma {:induction false} EveryRunIsSafe(s: System, schedule: seq<Event>)
    requires Invariant(s)
    ensures Invariant(Execute(s, schedule, true)) && Extends(s, Execute(s, schedule, true))
  {
    if schedule != [] {
      var shorter := schedule[..|schedule| - 1];
      EveryRunIsSafe(s, shorter);
      NextKeepsInvariant(Execute(s, shorter, true), schedule[|schedule| - 1]);
    }
  }

  lemma InitialIsInvariant(s: System)
    requires Initial(s)
    ensures Invariant(s)
  {
    forall i | 0 <= i < |s.runs| ensures RunSound(i, s.runs[i], s) {
      assert s.runs[i] in s.runs;
    }
  }

  /* ---------- main results ---------- */

  /**
   Under every interleaving: at most one row per key and none ever changes, the content of a key
   has run exactly once if its row says applied and never otherwise, and each run's report is
   true of the database.
   */
  lemma EveryInterleavingIsExactlyOnce(s: System, before: seq<Event>, after: seq<Event>)
    requires Initial(s)
    ensures var s1 := Execute(s, before, true);
            var s2 := Execute(s1, after, true);
            Invariant(s1) && Invariant(s2) && Extends(s, s1) && Extends(s1, s2)
  {
    InitialIsInvariant(s);
    EveryRunIsSafe(s, before);
    EveryRunIsSafe(Execute(s, before, true), after);
  }

  /** Of the runs for one key at most one reports that it applied or baselined the migration itself. */
  lemma AtMostOneWinner(s: System, schedule: seq<Event>, i: nat, j: nat)
    requires Initial(s) && i < |s.runs| && j < |s.runs|
    requires var s' := Execute(s, schedule, true);
             && s'.runs[i].item.key == s'.runs[j].item.key
             && s'.runs[i].phase in {Done(Applied), Done(Baselined)}
             && s'.runs[j].phase in {Done(Applied), Done(Baselined)}
    ensures i == j
  {
    InitialIsInvariant(s);
    EveryRunIsSafe(s, schedule);
    var s' := Execute(s, schedule, true);
    assert RunSound(i, s'.runs[i], s') && RunSound(j, s'.runs[j], s');
  }

  /** Every event of the schedule whose command took effect was heard by its run. */
  predicate NoLostReply(schedule: seq<Event>) {
    forall e | e in schedule :: e.outcome.reached ==> e.outcome.heard
  }

  /** The authors of rows report success. */
  predicate AuthorSucceeded(s: System, key: Key) {
    key in s.authors ==> s.authors[key] < |s.runs| && s.runs[s.authors[key]].phase in {Done(Applied), Done(Baselined)}
  }

  lemma HeardStepReports(s: System, e: Event, key: Key)
    requires Invariant(s) && AuthorSucceeded(s, key) && (e.outcome.reached ==> e.outcome.heard)
    ensures AuthorSucceeded(Next(s, e, true), key)
  {
    if e.run < |s.runs| {
      StepEffect(s.runs[e.run], s.db, e.outcome);
    }
  }

  /** If no reply is lost, a run that wrote a row reports success: failure means nothing was written. */
  lemma {:induction false} FailureMeansNoEffect(s: System, schedule: seq<Event>, key: Key)
    requires Initial(s) && NoLostReply(schedule)
    ensures var s' := Execute(s, schedule, true);
            key in s'.authors ==>
              && s'.authors[key] < |s'.runs|
              && s'.runs[s'.authors[key]].phase in {Done(Applied), Done(Baselined)}
  {
    if schedule != [] {
      var shorter, e := schedule[..|schedule| - 1], schedule[|schedule| - 1];
      assert e in schedule;
      FailureMeansNoEffect(s, shorter, key);
      InitialIsInvariant(s);
      EveryRunIsSafe(s, shorter);
      HeardStepReports(Execute(s, shorter, true), e, key);
    }
  }

  /* ---------- progress ---------- */

  /** How many events of the schedule belong to run i. */
  function Turns(schedule: seq<Event>, i: nat): nat {
    if schedule == [] then 0
    else Turns(schedule[..|schedule| - 1], i) + if schedule[|schedule| - 1].run == i then 1 else 0
  }

  lemma {:induction false} TurnsAreCounted(s: System, schedule: seq<Event>, i: nat)
    requires Initial(s) && i < |s.runs|
    ensures var run := Execute(s, schedule, true).runs[i];
            run.item == s.runs[i].item && (!run.phase.Finished() ==> run.total == Turns(schedule, i))
  {
    assert s.runs[i] in s.runs;
    if schedule != [] {
      TurnsAreCounted(s, schedule[..|schedule| - 1], i);
    }
  }

  /** Whatever the others do, a run is finished after 60 attempts for each of its commands. */
  lemma EveryRunFinishes(s: System, schedule: seq<Event>, i: nat)
    requires Initial(s) && i < |s.runs|
    requires Turns(schedule, i) >= MaxTotal(s.runs[i].item)
    ensures Execute(s, schedule, true).runs[i].phase.Finished()
    ensures Execute(s, schedule, true).runs[i].total <= MaxTotal(s.runs[i].item)
  {
    InitialIsInvariant(s);
    EveryRunIsSafe(s, schedule);
    TurnsAreCounted(s, schedule, i);
    var run := Execute(s, schedule, true).runs[i];
    assert RunSound(i, run, Execute(s, schedule, true));
    assert MaxTotal(run.item) == MAX_ATTEMPTS * (2 + |run.item.preconditions|) + MAX_ATTEMPTS;
  }

  /**
   Whatever the others do, a run whose command failed with an error that can be retried, before its 60th attempt and
   not cancelled, is in the same phase with one attempt more; the other runs have not moved.
   */
  lemma RetryableFailureIsRepeated(s: System, schedule: seq<Event>, e: Event)
    requires Initial(s) && e.run < |s.runs|
    requires var s' := Execute(s, schedule, true);
             !s'.runs[e.run].phase.Finished() && !Succeeds(s'.runs[e.run], s'.db, e.outcome)
    ensures var s' := Execute(s, schedule, true);
            var run, runs := s'.runs[e.run], Next(s', e, true).runs;
            && (e.outcome.retryable && !e.outcome.cancelled && run.attempt < 60 <==> runs[e.run].phase == run.phase)
            && (runs[e.run].phase == run.phase ==> runs[e.run] == run.(attempt := run.attempt + 1, total := run.total + 1))
            && forall i | 0 <= i < |runs| && i != e.run :: runs[i] == s'.runs[i]
  {
    InitialIsInvariant(s);
    EveryRunIsSafe(s, schedule);
    var s' := Execute(s, schedule, true);
    RepeatedExactly(s'.runs[e.run], s'.db, e.outcome, true);
  }

  /* ---------- the assumption that scripts are all or nothing ---------- */

  /** The log and the rows agree after every schedule. */
  ghost predicate Safe(atomic: bool) {
    forall s: System, schedule: seq<Event> | Initial(s) :: ExactlyOnce(Execute(s, schedule, atomic).db.data)
  }

  /** Both runs see no row, then both submit. */
  function Race(): seq<Event> {
    [Turn(0), Turn(1), Turn(0), Turn(1), Turn(0), Turn(1)]
  }

  /** The two runs after each of them has had as many turns as the total. */
  function Racing(item: Item, phase: Phase, total: nat, data: Data): System {
    var run := Run(item, false, phase, 1, total);
    System(Database({item.key.database}, data), [run, run], map[])
  }

  function Turn(i: nat): Event {
    Event(i, Outcome(true, true, false, false, 0))
  }

  /** One turn of each. */
  function BothMove(s: System): System
    requires forall r | r in s.runs :: WellFormed(r)
  {
    Execute(s, [Turn(0), Turn(1)], false)
  }

  lemma OneAfterTheOther(s: System)
    requires forall r | r in s.runs :: WellFormed(r)
    requires forall r | r in Next(s, Turn(0), false).runs :: WellFormed(r)
    ensures BothMove(s) == Next(Next(s, Turn(0), false), Turn(1), false)
  {
    assert [Turn(0), Turn(1)][..1] == [Turn(0)] && [Turn(0)][..0] == [];
    assert Execute(s, [], false) == s;
    assert Execute(s, [Turn(0)], false) == Next(s, Turn(0), false);
  }

  lemma BothEnsure(item: Item, s: System)
    requires s == System(Database({}, Data(map[], [])), [Fresh(item, false), Fresh(item, false)], map[])
    ensures BothMove(s) == Racing(item, Querying, 1, Data(map[], []))
  {
    OneAfterTheOther(s);
  }

  lemma BothFindNothing(item: Item)
    requires item.preconditions == []
    ensures BothMove(Racing(item, Querying, 1, Data(map[], []))) == Racing(item, Submitting, 2, Data(map[], []))
  {
    OneAfterTheOther(Racing(item, Querying, 1, Data(map[], [])));
  }

  lemma BothSubmit(item: Item)
    requires |item.checksum| <= COLUMN_WIDTH
    ensures var execution := Execution(item.key, item.assetID, item.checksum, item.content);
            BothMove(Racing(item, Submitting, 2, Data(map[], []))).db.data.log == [execution, execution]
  {
    OneAfterTheOther(Racing(item, Submitting, 2, Data(map[], [])));
  }

  lemma {:induction false} ExecuteAppend(s: System, a: seq<Event>, b: seq<Event>, atomic: bool)
    requires forall r | r in s.runs :: WellFormed(r)
    ensures Execute(s, a + b, atomic) == Execute(Execute(s, a, atomic), b, atomic)
    decreases |b|
  {
    if b == [] {
      assert a + b == a;
    } else {
      var n := |b| - 1;
      assert (a + b)[..|a| + n] == a + b[..n];
      ExecuteAppend(s, a, b[..n], atomic);
    }
  }

  lemma TwoSubmissions(item: Item, s: System)
    requires item.preconditions == [] && |item.checksum| <= COLUMN_WIDTH
    requires s == System(Database({}, Data(map[], [])), [Fresh(item, false), Fresh(item, false)], map[])
    ensures Executions(Execute(s, Race(), false).db.data.log, item.key) == 2
  {
    var both := [Turn(0), Turn(1)];
    assert Race() == both + both + both;
    ExecuteAppend(s, both, both, false);
    ExecuteAppend(s, both + both, both, false);
    BothEnsure(item, s);
    BothFindNothing(item);
    BothSubmit(item);
    TwoExecutions(Execution(item.key, item.assetID, item.checksum, item.content));
  }

  lemma TwoExecutions(execution: Execution)
    ensures Executions([execution, execution], execution.key) == 2
  {
    assert [execution, execution][..1] == [execution] && [execution][..0] == [];
    assert Executions([execution], execution.key) == 1;
  }

  /** Exactly-once holds of all interleavings if and only if the server runs a script all or nothing. */
  lemma SafeExactlyWhenScriptsAreAtomic(atomic: bool)
    ensures Safe(atomic) <==> atomic
  {
    if atomic {
      forall s: System, schedule: seq<Event> | Initial(s)
        ensures ExactlyOnce(Execute(s, schedule, atomic).db.data)
      {
        InitialIsInvariant(s);
        EveryRunIsSafe(s, schedule);
      }
    } else {
      var item := Item(Key("", "", "", "", ""), "", "", "", []);
      var s := System(Database({}, Data(map[], [])), [Fresh(item, false), Fresh(item, false)], map[]);
      assert Initial(s);
      TwoSubmissions(item, s);
      assert !ExactlyOnce(Execute(s, Race(), atomic).db.data);
    }
  }
}
