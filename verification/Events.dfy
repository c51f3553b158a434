/**
 * The event stream that concurrently running commands share, and the protocol of one observed command. An event is
 * numbered and written under the stream's lock, so emitting one is a single step; which emitter goes next is free.
 */
module Events {
  import opened Options

  datatype Kind = Started | Running | Completed | Failed | Other

  /** An emitted event; it is numbered even if encoding or writing it fails. */
  datatype Event = Event(number: nat, owner: int, kind: Kind, written: bool)

  /** Why the context ended. */
  datatype Stop = DeadlineExceeded | Canceled

  datatype Result = Result(output: string, error: string, exitCode: int)

  function StopText(stop: Stop): string {
    match stop
    case DeadlineExceeded => "context deadline exceeded"
    case Canceled => "context canceled"
  }

  /** agentObservedCommandCanceledResult. */
  function CanceledResult(trim: string -> string, stop: Stop, output: string): Result {
    var text := (if stop.DeadlineExceeded? then "command timed out" else "command canceled") + ": " + StopText(stop);
    Result(trim(output), if trim(output) == "" then text else text + ": " + trim(output),
           if stop.DeadlineExceeded? then 124 else 130)
  }

  /** What the process itself ends with: its output and, unless it succeeded, its error and exit code. */
  datatype Process = Process(output: string, failure: Option<(string, int)>)

  /** The result the waiting goroutine sends. */
  function ProcessResult(p: Process): Result {
    match p.failure
    case None => Result(p.output, "", 0)
    case Some((error, exitCode)) => Result(p.output, if p.output == "" then error else error + ": " + p.output, exitCode)
  }

  /** Which ready branch of the select is taken in the end. */
  datatype Branch = ResultReady | ContextDone

  /** How a command goes: whether it starts, how often the ticker fires, which branch wins, what the context says then. */
  datatype World = World(
    startError: Option<string>, ticks: nat, branch: Branch, process: Process, stop: Option<Stop>,
    cancelError: string, endsInTime: bool)

  /** waitForAgentObservedCommandCancel: the process is signalled and waited for, but not longer than two seconds. */
  function CancelResult(trim: string -> string, w: World, stop: Stop): Result {
    var canceling := if w.cancelError == "" then "" else "cancel command failed: " + w.cancelError;
    if w.endsInTime then CanceledResult(trim, stop, trim(w.process.output + "\n" + canceling))
    else CanceledResult(trim, stop, canceling)
  }

  /** The result of a command, whatever is observed of it on the way. */
  function ResultOf(trim: string -> string, w: World): Result {
    if w.startError.Some? then
      if w.stop.Some? then CanceledResult(trim, w.stop.value, "") else Result("", w.startError.value, 1)
    else match w.branch
      case ResultReady => if w.stop.Some? then CanceledResult(trim, w.stop.value, w.process.output) else ProcessResult(w.process)
      case ContextDone => CancelResult(trim, w, if w.stop.Some? then w.stop.value else Canceled)
  }

  /** The text of a stopped command begins with why it was stopped. */
  lemma CanceledTells(trim: string -> string, stop: Stop, output: string)
    ensures var r := CanceledResult(trim, stop, output);
      && r.output == trim(output)
      && (stop.DeadlineExceeded? ==> "command timed out: context deadline exceeded" <= r.error && r.exitCode == 124)
      && (stop.Canceled? ==> "command canceled: context canceled" <= r.error && r.exitCode == 130)
  {
    assert "command timed out" + ": " + "context deadline exceeded" == "command timed out: context deadline exceeded";
    assert "command canceled" + ": " + "context canceled" == "command canceled: context canceled";
  }

  /** The result of a command whose context ended is such a text, with what is known of the output. */
  lemma StoppedTells(trim: string -> string, w: World) returns (output: string)
    requires w.stop.Some?
    ensures ResultOf(trim, w) == CanceledResult(trim, w.stop.value, output)
    ensures w.startError.Some? ==> output == ""
    ensures w.startError.None? && w.branch == ResultReady ==> output == w.process.output
    ensures w.startError.None? && w.branch == ContextDone ==>
      var note := if w.cancelError == "" then "" else "cancel command failed: " + w.cancelError;
      output == if w.endsInTime then trim(w.process.output + "\n" + note) else note
  {
    var note := if w.cancelError == "" then "" else "cancel command failed: " + w.cancelError;
    output := if w.startError.Some? then "" else if w.branch == ResultReady then w.process.output
              else if w.endsInTime then trim(w.process.output + "\n" + note) else note;
  }

  /** Otherwise it tells why the command could not start, or its output and, if it failed, its error before that. */
  lemma ResultTells(trim: string -> string, w: World)
    requires w.stop.None?
    ensures w.startError.Some? ==> ResultOf(trim, w) == Result("", w.startError.value, 1)
    ensures w.startError.None? && w.branch == ResultReady && w.process.failure.None? ==>
      ResultOf(trim, w) == Result(w.process.output, "", 0)
    ensures w.startError.None? && w.branch == ResultReady && w.process.failure.Some? ==>
      var r := ResultOf(trim, w);
      && r.output == w.process.output && r.exitCode == w.process.failure.value.1
      && r.error == w.process.failure.value.0 + (if r.output == "" then "" else ": " + r.output)
  {
  }

  /** Once the context has ended, exit code and failure do not depend on the branch, the process or the wait. */
  lemma ExitCodeIgnoresTheRace(trim: string -> string, a: World, b: World)
    requires a.stop == b.stop && a.stop.Some?
    ensures ResultOf(trim, a).exitCode == ResultOf(trim, b).exitCode == if a.stop == Some(DeadlineExceeded) then 124 else 130
    ensures ResultOf(trim, a).error != "" && ResultOf(trim, b).error != ""
  {
  }

  /** A context that has not ended never shows in the result of a process that ended by itself. */
  lemma UndisturbedResult(trim: string -> string, w: World)
    requires w.startError.None? && w.stop.None? && w.branch == ResultReady
    ensures ResultOf(trim, w).exitCode == (if w.process.failure.None? then 0 else w.process.failure.value.1)
    ensures w.process.failure.None? ==> ResultOf(trim, w).error == ""
  {
  }

  // ----- Waiting for a command -----

  /** What a select takes: the result, the end of the context, a tick, or, while cancelling, the end of the two seconds. */
  datatype Choice = Receive | SeeDone(cancelError: string) | Beat | GiveUp

  /**
   * What happens next, in any order: the process starts or cannot, it ends, the context ends, the ticker fires, some
   * other emitter has its turn, or the select is scheduled and takes a branch if that one is ready.
   */
  datatype Happening =
    | Starts
    | CannotStart(error: string, written: bool)
    | ProcessEnds(process: Process)
    | ContextEnds(stop: Stop)
    | TickerFires
    | Elsewhere(turn: Turn)
    | Select(choice: Choice, written: bool)

  datatype Stage = Starting | Looping | Canceling(cancelError: string) | Done(world: World)

  /** Where the wait stands: the result channel, the end of the context, the ticker's channel, and the ticks taken. */
  datatype Watch = Watch(stage: Stage, ended: Option<Process>, stop: Option<Stop>, tick: bool, ticks: nat)

  function WatchStart(): Watch {
    Watch(Starting, None, None, false, 0)
  }

  /** A branch that is not ready is not taken. */
  function Taken(s: Watch, choice: Choice): Watch {
    match (s.stage, choice)
    case (Looping, Receive) =>
      if s.ended.Some? then s.(stage := Done(World(None, s.ticks, ResultReady, s.ended.value, s.stop, "", true))) else s
    case (Looping, SeeDone(cancelError)) => if s.stop.Some? then s.(stage := Canceling(cancelError)) else s
    case (Looping, Beat) => if s.tick then s.(tick := false, ticks := s.ticks + 1) else s
    case (Canceling(cancelError), Receive) =>
      if s.ended.Some? then s.(stage := Done(World(None, s.ticks, ContextDone, s.ended.value, s.stop, cancelError, true))) else s
    case (Canceling(cancelError), GiveUp) =>
      s.(stage := Done(World(None, s.ticks, ContextDone, Process("", None), s.stop, cancelError, false)))
    case _ => s
  }

  function WatchNext(s: Watch, h: Happening): Watch {
    if s.stage.Done? then s
    else
      match h
      case Starts => if s.stage.Starting? then s.(stage := Looping) else s
      case CannotStart(error, _) =>
        if s.stage.Starting? then s.(stage := Done(World(Some(error), 0, ResultReady, Process("", None), s.stop, "", true))) else s
      case ProcessEnds(process) => if !s.stage.Starting? && s.ended.None? then s.(ended := Some(process)) else s
      case ContextEnds(stop) => if s.stop.None? then s.(stop := Some(stop)) else s
      case TickerFires => if s.stage.Starting? then s else s.(tick := true)
      case Elsewhere(_) => s
      case Select(choice, _) => Taken(s, choice)
  }

  function Watched(hs: seq<Happening>): Watch
    decreases |hs|
  {
    if hs == [] then WatchStart() else WatchNext(Watched(hs[..|hs| - 1]), hs[|hs| - 1])
  }

  /** The turns in the stream that a happening stands for. */
  function TurnsAt(trim: string -> string, owner: int, s: Watch, h: Happening): seq<Turn> {
    var next := WatchNext(s, h);
    match h
    case Elsewhere(turn) => [turn]
    case Starts => if s.stage.Starting? then [Turn(owner, Launched, true)] else []
    case CannotStart(_, written) =>
      if next.stage.Done? && !s.stage.Done? then [Turn(owner, StartFails(ResultOf(trim, next.stage.world).error), written)] else []
    case Select(_, written) =>
      if next.stage.Done? && !s.stage.Done? then [Turn(owner, Finish(ResultOf(trim, next.stage.world).error), written)]
      else if next.ticks > s.ticks then [Turn(owner, Tick, written)] else []
    case _ => []
  }

  function Spoken(trim: string -> string, owner: int, first: bool, hs: seq<Happening>): seq<Turn>
    decreases |hs|
  {
    if hs == [] then [Turn(owner, Begin, first)]
    else
      var init := hs[..|hs| - 1];
      Spoken(trim, owner, first, init) + TurnsAt(trim, owner, Watched(init), hs[|hs| - 1])
  }

  /** Nobody else speaks for the command, other than by notes. */
  predicate Foreign(owner: int, h: Happening) {
    h.Elsewhere? ==> h.turn.owner != owner || h.turn.action == Note
  }

  function PhaseFor(trim: string -> string, s: Watch): Phase {
    match s.stage
    case Starting => Launching
    case Done(world) => Ended(ResultOf(trim, world).error != "")
    case _ => Waiting
  }

  /** What the command itself has said so far. */
  function Said(trim: string -> string, s: Watch): seq<Kind> {
    [Started] + Repeat(s.ticks) + if s.stage.Done? then [Final(ResultOf(trim, s.stage.world).error)] else []
  }

  // ----- The stream and one command in it -----

  /** The stream of one run; where each command stands is the position of its goroutine. */
  class Stream {
    var number: nat
    var log: seq<Event>
    var phases: map<int, Phase>

    function Now(): System
      reads this
    {
      System(number, log, phases)
    }

    constructor ()
      ensures Now() == Run([])
    {
      number, log, phases := 0, [], map[];
    }

    /** agentEmitEvent, for one event; written tells whether encoding and writing succeed. */
    method Emit(owner: int, kind: Kind, written: bool)
      modifies this
      ensures number == old(number) + 1 && log == old(log) + [Event(number, owner, kind, written)]
      ensures phases == old(phases)
    {
      number := number + 1;
      log := log + [Event(number, owner, kind, written)];
    }

    /** A command emits an event and goes on to another phase. */
    method Say(owner: int, kind: Kind, written: bool, phase: Phase)
      modifies this
      ensures Now() == Emitted(old(Now()), owner, kind, written, phase)
    {
      Emit(owner, kind, written);
      phases := phases[owner := phase];
    }

    /** Another emitter's turn. */
    method LetSpeak(turn: Turn)
      modifies this
      ensures Now() == Step(old(Now()), turn.owner, turn.action, turn.written)
    {
      if turn.action == Note {
        Emit(turn.owner, Other, turn.written);
        return;
      }
      match (PhaseOf(Now(), turn.owner), turn.action) {
        case (Idle, Begin) => Say(turn.owner, Started, turn.written, Launching);
        case (Launching, StartFails(error)) => Say(turn.owner, Final(error), turn.written, Ended(error != ""));
        case (Launching, Launched) => phases := phases[turn.owner := Waiting];
        case (Waiting, Tick) => Say(turn.owner, Running, turn.written, Waiting);
        case (Waiting, Finish(error)) => Say(turn.owner, Final(error), turn.written, Ended(error != ""));
        case _ =>
      }
    }

    /**
     * runAgentObservedCommand with an event stream. It ends at the n-th happening, or none of them ends it; until then
     * the stream takes exactly the turns these happenings stand for.
     */
    method RunObserved(trim: string -> string, owner: int, empty: bool, first: bool, hs: seq<Happening>)
      returns (r: Option<Result>, n: nat)
      requires PhaseOf(Now(), owner) == Idle && forall i | 0 <= i < |hs| :: Foreign(owner, hs[i])
      modifies this
      ensures empty ==> r == Some(Result("", "empty command", 1)) && n == 0 && Now() == old(Now())
      ensures !empty ==> n <= |hs| && Now() == RunFrom(old(Now()), Spoken(trim, owner, first, hs[..n]))
      ensures !empty ==> PhaseOf(Now(), owner) == PhaseFor(trim, Watched(hs[..n]))
      ensures !empty ==> Own(log, owner) == Own(old(log), owner) + Said(trim, Watched(hs[..n]))
      ensures !empty && r.None? ==> n == |hs| && !Watched(hs).stage.Done?
      ensures !empty && r.Some? ==> n > 0 && !Watched(hs[..n - 1]).stage.Done? && Watched(hs[..n]).stage.Done?
      ensures !empty && r.Some? ==> r.value == ResultOf(trim, Watched(hs[..n]).stage.world)
    {
      if empty {
        return Some(Result("", "empty command", 1)), 0;
      }
      ghost var before := Now();
      Say(owner, Started, first, Launching);
      FollowsAtStart(trim, owner, first, before);
      var s;
      r, s, n := Wait(trim, owner, first, before, hs);
      WatchingSpeaks(trim, owner, first, before, hs[..n]);
      assert hs[..|hs|] == hs;
    }

    /** The start of the process and the loop around the select. */
    method Wait(trim: string -> string, owner: int, first: bool, ghost before: System, hs: seq<Happening>)
      returns (r: Option<Result>, s: Watch, n: nat)
      requires Follows(trim, owner, first, before, [], WatchStart(), Now()) && forall i | 0 <= i < |hs| :: Foreign(owner, hs[i])
      modifies this
      ensures n <= |hs| && Follows(trim, owner, first, before, hs[..n], s, Now())
      ensures r.None? ==> n == |hs| && !s.stage.Done?
      ensures r.Some? ==> s.stage.Done? && r.value == ResultOf(trim, s.stage.world)
      ensures r.Some? ==> n > 0 && !Watched(hs[..n - 1]).stage.Done?
    {
      n, r, s := 0, None, WatchStart();
      ghost var done: seq<Happening> := [];
      while n < |hs|
        invariant n <= |hs| && done == hs[..n] && r.None? && !s.stage.Done?
        invariant Follows(trim, owner, first, before, done, s, Now())
      {
        FollowsOn(trim, owner, first, before, done, s, Now(), hs[n]);
        ghost var last := done;
        done := done + [hs[n]];
        r, s := Happens(trim, owner, s, hs[n]);
        n := n + 1;
        assert done == hs[..n];
        if r.Some? {
          assert hs[..n - 1] == last;
          return;
        }
      }
      assert hs[..|hs|] == hs;
    }

    /** One happening: the loop's own steps are those of the start and of the select. */
    method Happens(trim: string -> string, owner: int, s: Watch, h: Happening) returns (r: Option<Result>, next: Watch)
      requires !s.stage.Done? && PhaseOf(Now(), owner) == PhaseFor(trim, s)
      modifies this
      ensures next == WatchNext(s, h) && Now() == RunFrom(old(Now()), TurnsAt(trim, owner, s, h))
      ensures r.Some? <==> next.stage.Done?
      ensures r.Some? ==> r.value == ResultOf(trim, next.stage.world)
    {
      r, next := None, WatchNext(s, h);
      match h {
        case Elsewhere(turn) =>
          OneTurn(Now(), turn);
          LetSpeak(turn);
        case Starts =>
          if s.stage.Starting? {
            OneTurn(Now(), Turn(owner, Launched, true));
            phases := phases[owner := Waiting];
          }
        case CannotStart(error, written) =>
          if s.stage.Starting? {
            var result := Result("", error, 1);
            if s.stop.Some? {
              result := CanceledResult(trim, s.stop.value, "");
            }
            OneTurn(Now(), Turn(owner, StartFails(result.error), written));
            EmitResult(owner, result, written);
            r := Some(result);
          }
        case Select(choice, written) =>
          r := Selects(trim, owner, s, choice, written);
        case _ =>
      }
    }

    /** The select of the loop, or the one that waits for a cancelled command. */
    method Selects(trim: string -> string, owner: int, s: Watch, choice: Choice, written: bool) returns (r: Option<Result>)
      requires !s.stage.Done? && PhaseOf(Now(), owner) == PhaseFor(trim, s)
      modifies this
      ensures var next := Taken(s, choice);
        && Now() == RunFrom(old(Now()), TurnsAt(trim, owner, s, Select(choice, written)))
        && (r.Some? <==> next.stage.Done?) && (r.Some? ==> r.value == ResultOf(trim, next.stage.world))
    {
      r := None;
      if s.stage.Canceling? {
        r := WaitForCancel(trim, s, choice);
      } else if s.stage.Looping? {
        OneTurn(Now(), Turn(owner, Tick, written));
        r := TakeBranch(trim, owner, s, choice, written);
      }
      if r.Some? {
        OneTurn(Now(), Turn(owner, Finish(r.value.error), written));
        EmitResult(owner, r.value, written);
      }
    }

    /** emitAgentObservedCommandResult. */
    method EmitResult(owner: int, result: Result, written: bool)
      modifies this
      ensures Now() == Emitted(old(Now()), owner, Final(result.error), written, Ended(result.error != ""))
    {
      var kind := Completed;
      if result.error != "" {
        kind := Failed;
      }
      Say(owner, kind, written, Ended(result.error != ""));
    }

    /** The select of the loop: the process's result unless the context has ended, the end of the context, or a tick. */
    method TakeBranch(trim: string -> string, owner: int, s: Watch, choice: Choice, written: bool) returns (r: Option<Result>)
      requires s.stage.Looping? && PhaseOf(Now(), owner) == Waiting
      modifies this
      ensures var next := Taken(s, choice);
        && (r.Some? <==> next.stage.Done?) && (r.Some? ==> r.value == ResultOf(trim, next.stage.world))
        && Now() == if next.ticks > s.ticks then Step(old(Now()), owner, Tick, written) else old(Now())
    {
      r := None;
      match choice {
        case Receive =>
          if s.ended.Some? {
            var result := ProcessResult(s.ended.value);
            if s.stop.Some? {
              result := CanceledResult(trim, s.stop.value, result.output);
            }
            r := Some(result);
          }
        case SeeDone(_) =>
        case Beat =>
          if s.tick {
            Say(owner, Running, written, Waiting);
          }
        case GiveUp =>
      }
    }

    /** waitForAgentObservedCommandCancel: the result that still comes, or none within two seconds. */
    method WaitForCancel(trim: string -> string, s: Watch, choice: Choice) returns (r: Option<Result>)
      requires s.stage.Canceling?
      ensures var next := Taken(s, choice);
        (r.Some? <==> next.stage.Done?) && (r.Some? ==> r.value == ResultOf(trim, next.stage.world))
    {
      r := None;
      var stop := if s.stop.Some? then s.stop.value else Canceled;
      var output := if s.stage.cancelError == "" then "" else "cancel command failed: " + s.stage.cancelError;
      if choice == GiveUp {
        r := Some(CanceledResult(trim, stop, output));
      } else if choice == Receive && s.ended.Some? {
        r := Some(CanceledResult(trim, stop, trim(s.ended.value.output + "\n" + output)));
      }
    }
  }

  lemma OneTurn(s: System, turn: Turn)
    ensures RunFrom(s, [turn]) == Step(s, turn.owner, turn.action, turn.written)
  {
    assert [turn][..0] == [] && RunFrom(s, []) == s;
  }

  /** Each happening moves the command on in the stream, and nothing it says is lost. */
  lemma WatchStep(trim: string -> string, owner: int, before: seq<Kind>, at: System, s: Watch, h: Happening)
    requires Foreign(owner, h) && PhaseOf(at, owner) == PhaseFor(trim, s) && Own(at.log, owner) == before + Said(trim, s)
    ensures var next, then' := WatchNext(s, h), RunFrom(at, TurnsAt(trim, owner, s, h));
      PhaseOf(then', owner) == PhaseFor(trim, next) && Own(then'.log, owner) == before + Said(trim, next)
  {
    var next, turns := WatchNext(s, h), TurnsAt(trim, owner, s, h);
    if turns == [] {
      assert RunFrom(at, turns) == at;
    } else {
      var turn := turns[0];
      OneTurn(at, turn);
      if h.Elsewhere? {
        ElsewhereIsSilent(at, turn, owner);
      } else if turn.action.Launched? {
      } else {
        SpokenStep(trim, owner, before, at, s, next, turn);
      }
    }
  }

  lemma ElsewhereIsSilent(at: System, turn: Turn, owner: int)
    requires turn.owner != owner || turn.action == Note
    ensures var next := Step(at, turn.owner, turn.action, turn.written);
      PhaseOf(next, owner) == PhaseOf(at, owner) && Own(next.log, owner) == Own(at.log, owner)
  {
    if turn.owner == owner {
      NoteIsSilent(at, turn);
    } else {
      StepIsOwn(at, turn);
      OthersStep(at, Step(at, turn.owner, turn.action, turn.written), turn.owner, owner);
    }
  }

  /** A tick or an end is said. */
  lemma SpokenStep(trim: string -> string, owner: int, before: seq<Kind>, at: System, s: Watch, next: Watch, turn: Turn)
    requires PhaseOf(at, owner) == PhaseFor(trim, s) && Own(at.log, owner) == before + Said(trim, s) && !s.stage.Done?
    requires turn.owner == owner
    requires
      || (turn.action == Tick && !next.stage.Done? && PhaseFor(trim, s) == PhaseFor(trim, next) == Waiting && next.ticks == s.ticks + 1)
      || (next.stage.Done? && next.ticks == s.ticks && turn.action == Finish(ResultOf(trim, next.stage.world).error) && PhaseFor(trim, s) == Waiting)
      || (next.stage.Done? && next.ticks == s.ticks && turn.action == StartFails(ResultOf(trim, next.stage.world).error) && PhaseFor(trim, s) == Launching)
    ensures var then' := Step(at, owner, turn.action, turn.written);
      PhaseOf(then', owner) == PhaseFor(trim, next) && Own(then'.log, owner) == before + Said(trim, next)
  {
    var kind := if turn.action == Tick then Running else Final(ResultOf(trim, next.stage.world).error);
    OwnAppend(at.log, Event(at.number + 1, owner, kind, turn.written), owner);
    if turn.action == Tick {
      assert Repeat(s.ticks + 1) == Repeat(s.ticks) + [Running];
      assert Said(trim, next) == Said(trim, s) + [Running];
    } else {
      assert Said(trim, next) == Said(trim, s) + [kind];
    }
    assert (before + Said(trim, s)) + [kind] == before + (Said(trim, s) + [kind]);
  }

  /**
   * Whatever happens in whatever order, and whoever else emits in between, the wait refines the command's turns in the
   * stream: it stands where the stream says, and has said started, running for each tick taken, and its end.
   */
  lemma {:induction false} WatchingSpeaks(trim: string -> string, owner: int, first: bool, at: System, hs: seq<Happening>)
    requires PhaseOf(at, owner) == Idle && forall i | 0 <= i < |hs| :: Foreign(owner, hs[i])
    ensures var s, now := Watched(hs), RunFrom(at, Spoken(trim, owner, first, hs));
      PhaseOf(now, owner) == PhaseFor(trim, s) && Own(now.log, owner) == Own(at.log, owner) + Said(trim, s)
    decreases |hs|
  {
    if hs == [] {
      OneTurn(at, Turn(owner, Begin, first));
      OwnAppend(at.log, Event(at.number + 1, owner, Started, first), owner);
      assert Said(trim, WatchStart()) == [Started];
    } else {
      var init, last := hs[..|hs| - 1], hs[|hs| - 1];
      WatchingSpeaks(trim, owner, first, at, init);
      RunFromAppend(at, Spoken(trim, owner, first, init), TurnsAt(trim, owner, Watched(init), last));
      WatchStep(trim, owner, Own(at.log, owner), RunFrom(at, Spoken(trim, owner, first, init)), Watched(init), last);
    }
  }

  /** The wait and the stream are where these happenings lead. */
  ghost predicate Follows(trim: string -> string, owner: int, first: bool, before: System, hs: seq<Happening>, s: Watch, now: System) {
    && s == Watched(hs) && now == RunFrom(before, Spoken(trim, owner, first, hs))
    && PhaseOf(now, owner) == PhaseFor(trim, s) && PhaseOf(before, owner) == Idle
    && forall i | 0 <= i < |hs| :: Foreign(owner, hs[i])
  }

  lemma FollowsAtStart(trim: string -> string, owner: int, first: bool, before: System)
    requires PhaseOf(before, owner) == Idle
    ensures Follows(trim, owner, first, before, [], WatchStart(), Emitted(before, owner, Started, first, Launching))
  {
    OneTurn(before, Turn(owner, Begin, first));
  }

  lemma FollowsOn(trim: string -> string, owner: int, first: bool, before: System, hs: seq<Happening>, s: Watch, now: System, h: Happening)
    requires Follows(trim, owner, first, before, hs, s, now) && Foreign(owner, h)
    ensures Follows(trim, owner, first, before, hs + [h], WatchNext(s, h), RunFrom(now, TurnsAt(trim, owner, s, h)))
  {
    assert (hs + [h])[..|hs|] == hs;
    RunFromAppend(before, Spoken(trim, owner, first, hs), TurnsAt(trim, owner, s, h));
    WatchingSpeaks(trim, owner, first, before, hs + [h]);
  }

  // ----- What the result tells -----

  /** Errors have texts. */
  predicate Texts(h: Happening) {
    && (h.CannotStart? ==> h.error != "")
    && (h.ProcessEnds? && h.process.failure.Some? ==> h.process.failure.value.0 != "")
  }

  predicate Stopped(hs: seq<Happening>)
    decreases |hs|
  {
    hs != [] && (Stopped(hs[..|hs| - 1]) || hs[|hs| - 1].ContextEnds?)
  }

  /** How the wait's fields and the end of the command go together. */
  predicate Coherent(s: Watch) {
    && (s.stage.Starting? ==> s.ended.None?)
    && (s.stage.Canceling? ==> s.stop.Some?)
    && (s.ended.Some? && s.ended.value.failure.Some? ==> s.ended.value.failure.value.0 != "")
    && (s.stage.Done? ==> EndedWell(s, s.stage.world))
  }

  predicate EndedWell(s: Watch, w: World) {
    && w.stop == s.stop
    && (w.startError.Some? ==> s.ended.None? && w.startError.value != "")
    && (w.startError.None? ==> (w.branch == ContextDone && s.stop.Some?) || (w.branch == ResultReady && s.ended == Some(w.process)))
  }

  lemma {:induction false} WatchIsCoherent(hs: seq<Happening>)
    requires forall i | 0 <= i < |hs| :: Texts(hs[i])
    ensures Coherent(Watched(hs)) && (Watched(hs).stop.Some? ==> Stopped(hs))
    ensures !Watched(hs).stage.Done? ==> (Watched(hs).stop.Some? <==> Stopped(hs))
    decreases |hs|
  {
    if hs != [] {
      WatchIsCoherent(hs[..|hs| - 1]);
      assert Texts(hs[|hs| - 1]);
    }
  }

  lemma StoppedAtTheEnd(hs: seq<Happening>)
    requires hs != [] && !Watched(hs[..|hs| - 1]).stage.Done? && Watched(hs).stage.Done?
    requires forall i | 0 <= i < |hs| :: Texts(hs[i])
    ensures Coherent(Watched(hs)) && (Stopped(hs) <==> Watched(hs).stop.Some?)
  {
    var init, last := hs[..|hs| - 1], hs[|hs| - 1];
    WatchIsCoherent(init);
    WatchIsCoherent(hs);
    EndingLeavesTheStop(Watched(init), last);
  }

  lemma EndingLeavesTheStop(s: Watch, h: Happening)
    requires !s.stage.Done? && WatchNext(s, h).stage.Done?
    ensures !h.ContextEnds? && WatchNext(s, h).stop == s.stop
  {
  }

  lemma ErrorShows(trim: string -> string, w: World)
    requires w.stop.None?
    ensures w.startError.Some? && w.startError.value != "" ==> ResultOf(trim, w).error != ""
    ensures w.startError.None? && w.branch == ResultReady && w.process.failure.Some? && w.process.failure.value.0 != "" ==>
      ResultOf(trim, w).error != ""
  {
  }

  /**
   * A command reports success if and only if its process ended by itself with success and the context had not ended
   * at any time before the result was taken; if the context had, the exit code tells why, and otherwise it is the
   * process's own.
   */
  lemma SucceedsExactly(trim: string -> string, hs: seq<Happening>)
    requires hs != [] && !Watched(hs[..|hs| - 1]).stage.Done? && Watched(hs).stage.Done?
    requires forall i | 0 <= i < |hs| :: Texts(hs[i])
    ensures var s := Watched(hs);
      var r := ResultOf(trim, s.stage.world);
      && (r.error == "" <==> !Stopped(hs) && s.ended.Some? && s.ended.value.failure.None?)
      && (Stopped(hs) <==> s.stop.Some?)
      && (s.stop.Some? ==> r.exitCode == if s.stop.value.DeadlineExceeded? then 124 else 130)
      && (s.stop.None? && s.ended.Some? ==> r.exitCode == if s.ended.value.failure.None? then 0 else s.ended.value.failure.value.1)
  {
    StoppedAtTheEnd(hs);
    WorldTells(trim, Watched(hs));
  }

  lemma WorldTells(trim: string -> string, s: Watch)
    requires Coherent(s) && s.stage.Done?
    ensures var r := ResultOf(trim, s.stage.world);
      && (r.error == "" <==> s.stop.None? && s.ended.Some? && s.ended.value.failure.None?)
      && (s.stop.Some? ==> r.exitCode == if s.stop.value.DeadlineExceeded? then 124 else 130)
      && (s.stop.None? && s.ended.Some? ==> r.exitCode == if s.ended.value.failure.None? then 0 else s.ended.value.failure.value.1)
  {
    var w := s.stage.world;
    if s.stop.Some? {
      ExitCodeIgnoresTheRace(trim, w, w);
    } else {
      ErrorShows(trim, w);
      if w.startError.None? {
        UndisturbedResult(trim, w);
      }
    }
  }

  function Repeat(n: nat): (r: seq<Kind>)
    ensures |r| == n && forall k | k in r :: k == Running
  {
    seq(n, _ => Running)
  }

  /** The kinds of a command's own events, in order; what other code notes under its name does not count. */
  function Own(log: seq<Event>, owner: int): seq<Kind>
    decreases |log|
  {
    if log == [] then []
    else
      var last := log[|log| - 1];
      Own(log[..|log| - 1], owner) + if last.owner == owner && last.kind != Other then [last.kind] else []
  }

  lemma OwnAppend(log: seq<Event>, event: Event, owner: int)
    ensures Own(log + [event], owner) == Own(log, owner) + if event.owner == owner && event.kind != Other then [event.kind] else []
  {
    assert (log + [event])[..|log|] == log;
  }

  // ----- Any number of commands at once -----

  /** Where a command stands. */
  datatype Phase = Idle | Launching | Waiting | Ended(failed: bool)

  /** What a command, or some other emitter, does next. */
  datatype Action = Begin | StartFails(error: string) | Launched | Tick | Finish(error: string) | Note

  datatype System = System(number: nat, log: seq<Event>, phases: map<int, Phase>)

  function PhaseOf(s: System, owner: int): Phase {
    if owner in s.phases then s.phases[owner] else Idle
  }

  function Emitted(s: System, owner: int, kind: Kind, written: bool, phase: Phase): System {
    System(s.number + 1, s.log + [Event(s.number + 1, owner, kind, written)], s.phases[owner := phase])
  }

  function Final(error: string): Kind {
    if error != "" then Failed else Completed
  }

  /** A step of a command; what it cannot do where it stands changes nothing. */
  function Advance(s: System, owner: int, action: Action, written: bool): System {
    match (PhaseOf(s, owner), action)
    case (Idle, Begin) => Emitted(s, owner, Started, written, Launching)
    case (Launching, StartFails(error)) => Emitted(s, owner, Final(error), written, Ended(error != ""))
    case (Launching, Launched) => s.(phases := s.phases[owner := Waiting])
    case (Waiting, Tick) => Emitted(s, owner, Running, written, Waiting)
    case (Waiting, Finish(error)) => Emitted(s, owner, Final(error), written, Ended(error != ""))
    case _ => s
  }

  /** One step: a command advances, or some other code emits an event of its own. */
  function Step(s: System, owner: int, action: Action, written: bool): System {
    if action == Note then s.(number := s.number + 1, log := s.log + [Event(s.number + 1, owner, Other, written)])
    else Advance(s, owner, action, written)
  }

  datatype Turn = Turn(owner: int, action: Action, written: bool)

  function RunFrom(s: System, turns: seq<Turn>): System
    decreases |turns|
  {
    if turns == [] then s
    else
      var last := turns[|turns| - 1];
      Step(RunFrom(s, turns[..|turns| - 1]), last.owner, last.action, last.written)
  }

  function Run(turns: seq<Turn>): System {
    RunFrom(System(0, [], map[]), turns)
  }

  lemma {:induction false} RunFromAppend(s: System, a: seq<Turn>, b: seq<Turn>)
    ensures RunFrom(s, a + b) == RunFrom(RunFrom(s, a), b)
    decreases |b|
  {
    if b == [] {
      assert a + b == a;
    } else {
      var n := |b| - 1;
      assert (a + b)[..|a| + n] == a + b[..n];
      RunFromAppend(s, a, b[..n]);
    }
  }

  /** Events are numbered one by one, so that those that were written carry strictly increasing numbers. */
  ghost predicate Numbered(s: System) {
    s.number == |s.log| && forall i | 0 <= i < |s.log| :: s.log[i].number == i + 1
  }

  /** What a command in this phase has said: started, then running, then exactly one end that tells if it failed. */
  ghost predicate Grammar(phase: Phase, kinds: seq<Kind>) {
    match phase
    case Idle => kinds == []
    case Launching => kinds == [Started]
    case Waiting => |kinds| > 0 && kinds == [Started] + Repeat(|kinds| - 1)
    case Ended(failed) =>
      |kinds| > 1 && kinds == [Started] + Repeat(|kinds| - 2) + [if failed then Failed else Completed]
  }

  lemma GrammarStep(phase: Phase, kinds: seq<Kind>, kind: Kind, next: Phase)
    requires Grammar(phase, kinds)
    requires (phase.Idle? && kind == Started && next.Launching?)
      || (phase.Waiting? && kind == Running && next.Waiting?)
      || ((phase.Waiting? || phase.Launching?) && next.Ended? && kind == if next.failed then Failed else Completed)
    ensures Grammar(next, kinds + [kind])
  {
    if kind == Running {
      assert Repeat(|kinds|) == Repeat(|kinds| - 1) + [Running];
    }
  }

  lemma EmittedSpeaks(s: System, owner: int, kind: Kind, written: bool, phase: Phase)
    requires kind != Other && Grammar(phase, Own(s.log, owner) + [kind])
    ensures var next := Emitted(s, owner, kind, written, phase); Grammar(PhaseOf(next, owner), Own(next.log, owner))
  {
    OwnAppend(s.log, Event(s.number + 1, owner, kind, written), owner);
  }

  lemma LaunchedSpeaks(kinds: seq<Kind>)
    requires Grammar(Launching, kinds)
    ensures Grammar(Waiting, kinds)
  {
    assert [Started] + Repeat(0) == [Started];
  }

  /** A command moves on within its grammar. */
  lemma OwnStep(s: System, turn: Turn)
    requires Grammar(PhaseOf(s, turn.owner), Own(s.log, turn.owner))
    ensures var next := Advance(s, turn.owner, turn.action, turn.written);
      Grammar(PhaseOf(next, turn.owner), Own(next.log, turn.owner))
  {
    var owner, phase, kinds := turn.owner, PhaseOf(s, turn.owner), Own(s.log, turn.owner);
    match (phase, turn.action)
    case (Idle, Begin) =>
      GrammarStep(phase, kinds, Started, Launching);
      EmittedSpeaks(s, owner, Started, turn.written, Launching);
    case (Launching, StartFails(error)) =>
      GrammarStep(phase, kinds, Final(error), Ended(error != ""));
      EmittedSpeaks(s, owner, Final(error), turn.written, Ended(error != ""));
    case (Launching, Launched) =>
      LaunchedSpeaks(kinds);
    case (Waiting, Tick) =>
      GrammarStep(phase, kinds, Running, Waiting);
      EmittedSpeaks(s, owner, Running, turn.written, Waiting);
    case (Waiting, Finish(error)) =>
      GrammarStep(phase, kinds, Final(error), Ended(error != ""));
      EmittedSpeaks(s, owner, Final(error), turn.written, Ended(error != ""));
    case _ =>
  }

  /** The log only grows by events of the emitter whose turn it is, and only its phase changes. */
  ghost predicate OnlyOwn(s: System, next: System, emitter: int) {
    && (next.log == s.log || exists event: Event :: event.owner == emitter && next.log == s.log + [event])
    && forall owner: int | owner != emitter :: PhaseOf(next, owner) == PhaseOf(s, owner)
  }

  lemma StepIsOwn(s: System, turn: Turn)
    ensures OnlyOwn(s, Step(s, turn.owner, turn.action, turn.written), turn.owner)
  {
    var next := Step(s, turn.owner, turn.action, turn.written);
    if next.log != s.log {
      assert next.log[|s.log|].owner == turn.owner && next.log == s.log + [next.log[|s.log|]];
    }
  }

  /** And whatever others do does not touch it. */
  lemma OthersStep(s: System, next: System, emitter: int, owner: int)
    requires OnlyOwn(s, next, emitter) && emitter != owner
    ensures PhaseOf(next, owner) == PhaseOf(s, owner) && Own(next.log, owner) == Own(s.log, owner)
  {
    if next.log != s.log {
      var event: Event :| event.owner == emitter && next.log == s.log + [event];
      OwnAppend(s.log, event, owner);
    }
  }

  lemma NoteIsSilent(s: System, turn: Turn)
    requires turn.action == Note
    ensures var next := Step(s, turn.owner, turn.action, turn.written);
      PhaseOf(next, turn.owner) == PhaseOf(s, turn.owner) && Own(next.log, turn.owner) == Own(s.log, turn.owner)
  {
    OwnAppend(s.log, Event(s.number + 1, turn.owner, Other, turn.written), turn.owner);
  }

  lemma StepSpeaks(s: System, turn: Turn, owner: int)
    requires Grammar(PhaseOf(s, owner), Own(s.log, owner))
    ensures var next := Step(s, turn.owner, turn.action, turn.written); Grammar(PhaseOf(next, owner), Own(next.log, owner))
  {
    if turn.owner != owner {
      StepIsOwn(s, turn);
      OthersStep(s, Step(s, turn.owner, turn.action, turn.written), turn.owner, owner);
    } else if turn.action == Note {
      NoteIsSilent(s, turn);
    } else {
      OwnStep(s, turn);
    }
  }

  lemma StepNumbers(s: System, turn: Turn)
    requires Numbered(s)
    ensures Numbered(Step(s, turn.owner, turn.action, turn.written))
  {
  }

  /** In every interleaving of any number of commands, events are numbered in order and each command keeps its grammar. */
  lemma {:induction false} EveryInterleavingSpeaksInOrder(turns: seq<Turn>, owner: int)
    ensures var s := Run(turns); Numbered(s) && Grammar(PhaseOf(s, owner), Own(s.log, owner))
    decreases |turns|
  {
    if turns != [] {
      var init, last := turns[..|turns| - 1], turns[|turns| - 1];
      EveryInterleavingSpeaksInOrder(init, owner);
      StepSpeaks(Run(init), last, owner);
      StepNumbers(Run(init), last);
    }
  }

  function Written(log: seq<Event>): seq<Event>
    decreases |log|
  {
    if log == [] then []
    else
      var last := log[|log| - 1];
      Written(log[..|log| - 1]) + if last.written then [last] else []
  }

  lemma {:induction false} WrittenAreBelow(log: seq<Event>)
    requires forall i | 0 <= i < |log| :: log[i].number == i + 1
    ensures forall e | e in Written(log) :: e.number <= |log|
    ensures forall i, j | 0 <= i < j < |Written(log)| :: Written(log)[i].number < Written(log)[j].number
    decreases |log|
  {
    if log != [] {
      var init := log[..|log| - 1];
      WrittenAreBelow(init);
      var w := Written(init);
      assert forall i | 0 <= i < |w| :: w[i] in w;
    }
  }

  /** So what reaches the reader has strictly increasing numbers, with gaps only where an event was lost. */
  lemma WrittenNumbersIncrease(turns: seq<Turn>)
    ensures var w := Written(Run(turns).log); forall i, j | 0 <= i < j < |w| :: w[i].number < w[j].number
  {
    EveryInterleavingSpeaksInOrder(turns, 0);
    WrittenAreBelow(Run(turns).log);
  }
}
