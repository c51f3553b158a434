/**
 One SQL migration against one target MySQL server: ensure the history table, query the recorded
 checksum, check the preconditions, submit the script, each command retried up to 60 times.
 A server command is one atomic step; the steps of any number of runs interleave.
 */
module MigrationProtocol {
  import opened Text

  const MAX_ATTEMPTS := 60

  /** The columns of the unique key of the history table. */
  datatype Key = Key(environment: string, owner: string, provider: string, database: string, version: string)

  datatype Precondition = ColumnNotExists(table: string, column: string) | Unsupported(kind: string)

  datatype Item = Item(key: Key, assetID: string, checksum: string, content: string, preconditions: seq<Precondition>)

  datatype RowStatus = RowApplied | RowBaseline

  datatype Row = Row(assetID: string, checksum: string, status: RowStatus)

  /** A migration content that the server has executed. */
  datatype Execution = Execution(key: Key, assetID: string, checksum: string, content: string)

  datatype Data = Data(history: map<Key, Row>, log: seq<Execution>)

  /** `tables` names the databases that have a history table. */
  datatype Database = Database(tables: set<string>, data: Data)

  /* ---------- reading the recorded checksum ---------- */

  predicate IsHexDigit(c: char) {
    '0' <= c <= '9' || 'a' <= c <= 'f' || 'A' <= c <= 'F'
  }

  predicate LooksLikeHex(s: string) {
    forall c | c in s :: IsHexDigit(c)
  }

  /** A checksum that the reader recognises: 64 hex digits. */
  predicate Visible(checksum: string) {
    |checksum| == COLUMN_WIDTH && LooksLikeHex(checksum)
  }

  function FirstChecksum(lines: seq<string>): (r: string)
    ensures r != "" ==> Visible(r)
  {
    if lines == [] then ""
    else if Visible(TrimSpace(lines[0])) then TrimSpace(lines[0])
    else FirstChecksum(lines[1..])
  }

  /** A line that, trimmed, is a checksum: 64 characters, each a digit or a letter from a to f in either case. */
  predicate ChecksumLine(line: string) {
    |TrimSpace(line)| == 64 && forall c | c in TrimSpace(line) :: c in "0123456789abcdefABCDEF"
  }

  lemma HexDigits(c: char)
    ensures IsHexDigit(c) <==> c in "0123456789abcdefABCDEF"
  {
  }

  lemma ChecksumLines(line: string)
    ensures Visible(TrimSpace(line)) <==> ChecksumLine(line)
  {
    forall c | c in TrimSpace(line) ensures IsHexDigit(c) <==> c in "0123456789abcdefABCDEF" {
      HexDigits(c);
    }
  }

  lemma FirstChecksumStep(lines: seq<string>)
    requires lines != []
    ensures FirstChecksum(lines) == if ChecksumLine(lines[0]) then TrimSpace(lines[0]) else FirstChecksum(lines[1..])
  {
    ChecksumLines(lines[0]);
  }

  /** What is read is the first such line, trimmed, and nothing if there is none. */
  lemma {:induction false} FirstChecksumExactly(lines: seq<string>) returns (k: nat)
    ensures k <= |lines| && NoneBefore(lines, k, ChecksumLine)
    ensures k < |lines| ==> ChecksumLine(lines[k]) && FirstChecksum(lines) == TrimSpace(lines[k])
    ensures k == |lines| ==> FirstChecksum(lines) == ""
  {
    k := 0;
    if lines != [] {
      FirstChecksumStep(lines);
      if !ChecksumLine(lines[0]) {
        var rest := FirstChecksumExactly(lines[1..]);
        NoneBeforeNext(lines, rest, ChecksumLine);
        k := rest + 1;
      }
    }
  }

  method ChecksumFromOutput(output: string) returns (r: string)
    ensures r == FirstChecksum(Split(output, '\n'))
  {
    var lines := Split(output, '\n');
    assert lines[0..] == lines;
    for i := 0 to |lines|
      invariant FirstChecksum(lines) == FirstChecksum(lines[i..])
    {
      assert lines[i..][1..] == lines[i + 1..];
      var value := TrimSpace(lines[i]);
      if |value| == 64 && LooksLikeHex(value) {
        return value;
      }
    }
    return "";
  }

  const HEADING := "checksum"

  /** The checksum column is CHAR(64). */
  const COLUMN_WIDTH := 64

  /** What the mysql client prints for the history query: a heading and the one matching row, if any. */
  function QueryOutput(data: Data, key: Key): string {
    if key in data.history then HEADING + ['\n'] + data.history[key].checksum else ""
  }

  /** The checksum the run reads back for its key: a recorded one is recognised only if it is 64 hex digits. */
  function Existing(data: Data, key: Key): string {
    if key in data.history && Visible(data.history[key].checksum) then data.history[key].checksum else ""
  }

  lemma ShortLineIsSkipped(line: string, rest: seq<string>)
    requires |line| < COLUMN_WIDTH
    ensures FirstChecksum([line] + rest) == FirstChecksum(rest)
  {
    assert |TrimSpace(line)| <= |line|;
    assert ([line] + rest)[1..] == rest;
  }

  lemma HexIsOneWord(c: char)
    requires IsHexDigit(c)
    ensures !IsSpace(c) && c != '\n'
  {
  }

  lemma VisibleIsOneLine(c: string)
    requires Visible(c)
    ensures Trimmed(c) && '\n' !in c
  {
    HexIsOneWord(c[0]);
    HexIsOneWord(c[|c| - 1]);
  }

  lemma VisibleIsRead(c: string)
    requires Visible(c)
    ensures FirstChecksum(Split(c, '\n')) == c
  {
    VisibleIsOneLine(c);
    SplitJoin([c], '\n');
  }

  lemma {:induction false} NothingVisible(lines: seq<string>, c: string)
    requires |c| <= COLUMN_WIDTH && !Visible(c)
    requires forall p | p in lines :: |p| <= |c| && (|p| == |c| ==> p == c)
    ensures FirstChecksum(lines) == ""
  {
    if lines != [] {
      assert lines[0] in lines;
      var value := TrimSpace(lines[0]);
      assert |value| == COLUMN_WIDTH ==> value == lines[0] == c;
      NothingVisible(lines[1..], c);
    }
  }

  /** Parsing the client's output finds the recorded checksum if and only if it consists of 64 hex digits. */
  lemma RecordedChecksumIsRead(data: Data, key: Key)
    requires key in data.history ==> |data.history[key].checksum| <= COLUMN_WIDTH
    ensures FirstChecksum(Split(QueryOutput(data, key), '\n')) == Existing(data, key)
  {
    if key in data.history {
      var c := data.history[key].checksum;
      SplitHead(HEADING, '\n', c);
      ShortLineIsSkipped(HEADING, Split(c, '\n'));
      if Visible(c) {
        VisibleIsRead(c);
      } else {
        PartsAreShort(c, '\n');
        NothingVisible(Split(c, '\n'), c);
      }
    } else {
      assert Split("", '\n') == [""];
      assert [""][1..] == [];
    }
  }

  /* ---------- one step of one run ---------- */

  /** What happens to one command: whether the server carried it out, whether the client heard so. */
  datatype Outcome = Outcome(reached: bool, heard: bool, retryable: bool, cancelled: bool, count: int)

  datatype Reported = Applied | AlreadyApplied | Baselined | BaselineAlreadyRecorded

  datatype Reason = CommandFailed | Cancelled | ChecksumMismatch | PreconditionFailed(precondition: Precondition)

  datatype Phase =
    | Ensuring
    | Querying
    | Checking(index: nat)
    | Submitting
    | Done(reported: Reported)
    | Failed(reason: Reason)
  {
    predicate Finished() { Done? || Failed? }
  }

  datatype Run = Run(item: Item, baseline: bool, phase: Phase, attempt: nat, total: nat)

  function Fresh(item: Item, baseline: bool): Run {
    Run(item, baseline, Ensuring, 1, 0)
  }

  function RowOf(item: Item, baseline: bool): Row {
    Row(item.assetID, item.checksum, if baseline then RowBaseline else RowApplied)
  }

  function Commit(data: Data, item: Item, baseline: bool): Data {
    Data(data.history[item.key := RowOf(item, baseline)],
         if baseline then data.log else data.log + [Execution(item.key, item.assetID, item.checksum, item.content)])
  }

  /** Whether the server accepts the command of the run's phase. */
  predicate Accepts(run: Run, db: Database) {
    match run.phase
    case Ensuring => true
    case Submitting =>
      && run.item.key.database in db.tables && run.item.key !in db.data.history
      && |run.item.checksum| <= COLUMN_WIDTH
    case _ => run.item.key.database in db.tables
  }

  /**
   The server's state after it ran the command.  A script is all or nothing when `atomic`;
   otherwise its content stays executed when the insertion of the history row is refused.
   */
  function Serve(run: Run, db: Database, atomic: bool): Database {
    match run.phase
    case Ensuring => db.(tables := db.tables + {run.item.key.database})
    case Submitting =>
      if Accepts(run, db) then db.(data := Commit(db.data, run.item, run.baseline))
      else if atomic || run.baseline then db
      else db.(data := db.data.(log := Commit(db.data, run.item, false).log))
    case _ => db
  }

  /** The first precondition at or after i that leads to a query, or the submission. */
  function NextCheck(item: Item, i: nat): (phase: Phase)
    requires i <= |item.preconditions|
    ensures phase == Submitting || phase.Checking?
    ensures phase.Checking? ==> i <= phase.index < |item.preconditions| && item.preconditions[phase.index].ColumnNotExists?
    decreases |item.preconditions| - i
  {
    if i == |item.preconditions| then Submitting
    else if item.preconditions[i].Unsupported? then NextCheck(item, i + 1)
    else Checking(i)
  }

  /** The phase after a command that succeeded. */
  function Advance(run: Run, data: Data, count: int): Phase
    requires run.phase.Checking? ==> run.phase.index < |run.item.preconditions|
  {
    match run.phase
    case Ensuring => Querying
    case Querying =>
      var existing := Existing(data, run.item.key);
      if existing != "" then
        if existing != run.item.checksum then Failed(ChecksumMismatch)
        else Done(if run.baseline then BaselineAlreadyRecorded else AlreadyApplied)
      else if run.baseline then Submitting
      else NextCheck(run.item, 0)
    case Checking(i) =>
      if count > 0 then Failed(PreconditionFailed(run.item.preconditions[i])) else NextCheck(run.item, i + 1)
    case Submitting => Done(if run.baseline then Baselined else Applied)
    case _ => run.phase
  }

  /** The run after a command that failed: stop, or wait a second and try again. */
  function Retry(run: Run, o: Outcome): Run {
    if !o.retryable || run.attempt >= MAX_ATTEMPTS then run.(phase := Failed(CommandFailed))
    else if o.cancelled then run.(phase := Failed(Cancelled))
    else run.(attempt := run.attempt + 1)
  }

  predicate WellFormed(run: Run) {
    run.phase.Checking? ==> run.phase.index < |run.item.preconditions|
  }

  function Step(run: Run, db: Database, o: Outcome, atomic: bool): (r: (Run, Database))
    requires WellFormed(run)
    ensures WellFormed(r.0)
  {
    if run.phase.Finished() then (run, db)
    else
      var db' := if o.reached then Serve(run, db, atomic) else db;
      var tried := run.(total := run.total + 1);
      if o.reached && o.heard && Accepts(run, db) then
        (tried.(phase := Advance(run, db.data, o.count), attempt := 1), db')
      else (Retry(tried, o), db')
  }

  /* ---------- which failures are repeated ---------- */

  /** The command took effect and the client heard so. */
  predicate Succeeds(run: Run, db: Database, o: Outcome) {
    o.reached && o.heard && Accepts(run, db)
  }

  /**
   A command that did not succeed is sent again, in the same phase and counted, exactly if its error can be retried, the
   caller has not given up and it was not the 60th attempt.  Otherwise it fails: as cancelled if the caller gave up
   before another attempt, and else with its own error.
   */
  lemma RepeatedExactly(run: Run, db: Database, o: Outcome, atomic: bool)
    requires WellFormed(run) && !run.phase.Finished() && !Succeeds(run, db, o)
    ensures var run' := Step(run, db, o, atomic).0;
            && run'.total == run.total + 1 && run'.item == run.item && run'.baseline == run.baseline
            && (run'.phase == run.phase <==> o.retryable && !o.cancelled && run.attempt < 60)
            && (run'.phase == run.phase ==> run'.attempt == run.attempt + 1)
            && (run'.phase == Failed(Cancelled) <==> o.retryable && o.cancelled && run.attempt < 60)
            && (run'.phase == Failed(CommandFailed) <==> !o.retryable || run.attempt >= 60)
  {
  }

  /** A command that succeeded is not sent again for its own sake: the next one starts with its first attempt. */
  lemma SucceededMovesOn(run: Run, db: Database, o: Outcome, atomic: bool)
    requires WellFormed(run) && !run.phase.Finished() && Succeeds(run, db, o)
    ensures var run' := Step(run, db, o, atomic).0;
            run'.phase != run.phase && run'.attempt == 1 && run'.total == run.total + 1
            && run'.phase != Failed(CommandFailed) && run'.phase != Failed(Cancelled)
  {
  }
}
