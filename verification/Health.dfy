/**
 * Health checks that share one deadline, on a virtual clock in milliseconds. The clock only moves while a probe
 * runs, while a cancelled command is waited for, and between two polls.
 */
module Health {
  import opened StableSort
  import opened Text

  const PROBE_LIMIT: nat := 2000
  const CANCEL_LIMIT: nat := 2000
  const POLL: nat := 250

  datatype Kind = Url | Tcp | Command | ComposeService | Container | Unsupported

  /** A check; it is configured if the field its kind needs is not empty. */
  datatype Check = Check(id: string, kind: Kind, configured: bool)

  datatype Error = NoError | NotStarted | UnsupportedKind | NoComposeFile | Unhealthy | Broken | Cancelled

  /** What one probe shows: healthy, not healthy yet, or an error that ends a URL or TCP check at once. */
  datatype Outcome = Ready | NotReady | Failed

  /** One probe: what it would show, and whether it was cut off at its limit before it could. */
  datatype Probed = Probed(outcome: Outcome, cut: bool)

  /** What was reported for a check, with the times at which it began and ended and its probes. */
  datatype Report = Report(check: Check, ok: bool, error: Error, began: int, ended: int, probes: seq<Probed>)

  predicate Configured(check: Check) {
    check.configured || check.kind == Unsupported
  }

  function Smaller(a: int, b: int): int {
    if a < b then a else b
  }

  /** The promise for one check that begins before the deadline: when it ends, and how often it probes. */
  predicate InTime(r: Report, deadline: int) {
    && r.began <= r.ended <= deadline + PROBE_LIMIT + POLL
    && (r.check.kind == Url || r.check.kind == Tcp ==> |r.probes| <= (deadline - r.began) / POLL + 2)
    && (r.ok <==> r.error == NoError) && (r.ok ==> r.probes != [])
  }

  /**
   * The verdict: good exactly if the last probe was not cut off and showed that the target is ready, while no earlier
   * one did. A URL or TCP check breaks exactly if its last probe failed; elsewhere a failure is one more poll.
   */
  predicate Told(r: Report) {
    var n, probing := |r.probes|, r.check.kind == Url || r.check.kind == Tcp;
    && (r.ok <==> n > 0 && r.probes[n - 1] == Probed(Ready, false))
    && (forall i | 0 <= i < n - 1 :: r.probes[i] != Probed(Ready, false) && (probing ==> r.probes[i] != Probed(Failed, false)))
    && (r.error == Broken <==> probing && n > 0 && r.probes[n - 1] == Probed(Failed, false))
  }

  /** A check is only probed if its kind is known and, for a Compose service, there is a Compose file. */
  predicate Dispatched(r: Report, deadline: int, composeFile: bool) {
    r.began < deadline ==>
      && (r.error == UnsupportedKind <==> r.check.kind == Unsupported)
      && (r.error == NoComposeFile <==> r.check.kind == ComposeService && !composeFile)
      && (r.probes == [] <==> r.check.kind == Unsupported || (r.check.kind == ComposeService && !composeFile))
  }

  /** The promise for any check: the same, or, from the deadline on, an error without a probe and without delay. */
  predicate Kept(r: Report, deadline: int) {
    if r.began < deadline then InTime(r, deadline)
    else r.error == NotStarted && !r.ok && r.probes == [] && r.ended == r.began
  }

  /** Every report keeps its promise, and the checks ran one after the other. */
  predicate AllKept(out: seq<Report>, deadline: int, composeFile: bool, now: int) {
    && (forall i | 0 <= i < |out| ::
          Kept(out[i], deadline) && Told(out[i]) && Dispatched(out[i], deadline, composeFile) && out[i].ended <= now)
    && (forall i, j | 0 <= i < j < |out| :: out[i].ended <= out[j].began)
  }

  /** The world the checks run in: how long the next step takes, what a probe shows, whether the caller gives up. */
  class Clock {
    var now: int
    var step: nat
    var probed: seq<Probed>
    const duration: nat -> nat
    const outcome: nat -> Outcome
    const cancelled: nat -> bool

    constructor (now: int, duration: nat -> nat, outcome: nat -> Outcome, cancelled: nat -> bool)
      ensures this.now == now && probed == []
    {
      this.now, this.step, this.probed := now, 0, [];
      this.duration, this.outcome, this.cancelled := duration, outcome, cancelled;
    }

    /** One probe, cut off at its limit. */
    method Probe(limit: nat) returns (probe: Probed)
      modifies this
      ensures probe == Probed(outcome(old(step)), duration(old(step)) >= limit) && probed == old(probed) + [probe]
      ensures now == old(now) + (if probe.cut then limit else duration(old(step))) && step == old(step) + 1
    {
      probe := Probed(outcome(step), duration(step) >= limit);
      now := now + Smaller(duration(step), limit);
      step, probed := step + 1, probed + [probe];
    }

    /** The pause between two probes; it takes its full time unless the caller gives up. */
    method Pause() returns (goOn: bool)
      modifies this
      ensures old(now) <= now <= old(now) + POLL
      ensures goOn ==> now == old(now) + POLL
      ensures goOn == !cancelled(old(step)) && step == old(step) + 1 && probed == old(probed)
    {
      goOn := !cancelled(step);
      now := now + if goOn then POLL else Smaller(duration(step), POLL);
      step := step + 1;
    }

    /** waitEnvironmentRestoreHealthPoll. */
    method WaitForPoll(deadline: int) returns (error: Error)
      modifies this
      ensures old(now) <= now
      ensures error == NoError ==> old(now) <= deadline && now == old(now) + POLL
      ensures error != NoError ==> now == old(now) || now <= deadline + POLL
      ensures error == Unhealthy <==> old(now) > deadline
      ensures error == Cancelled <==> old(now) <= deadline && cancelled(old(step))
      ensures error in {NoError, Unhealthy, Cancelled} && probed == old(probed)
    {
      if now > deadline {
        return Unhealthy;
      }
      var goOn := Pause();
      return if goOn then NoError else Cancelled;
    }

    /** The URL and TCP loops: probe, then poll until the deadline has passed. */
    method WaitForProbe(check: Check, timeout: nat) returns (r: Report)
      requires timeout > 0 && (check.kind == Url || check.kind == Tcp)
      modifies this
      ensures r.check == check && r.began == old(now) && r.ended == now && InTime(r, old(now) + timeout)
      ensures probed == old(probed) + r.probes && r.probes != []
      ensures r.ok <==> r.probes[|r.probes| - 1] == Probed(Ready, false)
      ensures r.error == Broken <==> r.probes[|r.probes| - 1] == Probed(Failed, false)
      ensures forall i | 0 <= i < |r.probes| - 1 :: r.probes[i].cut || r.probes[i].outcome == NotReady
      ensures r.error == Unhealthy ==> now > old(now) + timeout
      ensures r.error in {NoError, Broken, Unhealthy, Cancelled} && Told(r)
    {
      var began, deadline := now, now + timeout;
      var probes: seq<Probed> := [];
      while true
        invariant began <= now <= deadline + POLL
        invariant now >= began + POLL * |probes|
        invariant probes != [] ==> now - POLL <= deadline
        invariant probed == old(probed) + probes
        invariant forall i | 0 <= i < |probes| :: probes[i].cut || probes[i].outcome == NotReady
        decreases deadline + 2 * POLL - now
      {
        assert POLL * |probes| <= timeout + POLL;
        ProbesFit(|probes|, timeout);
        var probe := Probe(PROBE_LIMIT);
        Associative(old(probed), probes, [probe]);
        probes := probes + [probe];
        if !probe.cut && probe.outcome == Failed {
          return Report(check, false, Broken, began, now, probes);
        }
        if !probe.cut && probe.outcome == Ready {
          return Report(check, true, NoError, began, now, probes);
        }
        var error := WaitForPoll(deadline);
        if error != NoError {
          return Report(check, false, error, began, now, probes);
        }
      }
    }

    /** runRestoreCommand under its own timeout; a command that is cut off is waited for at most CANCEL_LIMIT. */
    method RunCommand(limit: nat) returns (probe: Probed)
      modifies this
      ensures old(now) <= now <= old(now) + limit + CANCEL_LIMIT && (!probe.cut ==> now <= old(now) + limit)
      ensures probe == Probed(outcome(old(step)), duration(old(step)) >= limit) && probed == old(probed) + [probe]
    {
      probe := Probe(limit);
      if probe.cut {
        now := now + Smaller(duration(step), CANCEL_LIMIT);
        step := step + 1;
      }
    }

    /** waitEnvironmentRestoreCommand, which all kinds that run a command share. */
    method WaitForCommand(check: Check, timeout: nat) returns (r: Report)
      requires timeout > 0 && check.kind != Url && check.kind != Tcp
      modifies this
      ensures r.check == check && r.began == old(now) && r.ended == now && InTime(r, old(now) + timeout)
      ensures r.ended <= old(now) + timeout + CANCEL_LIMIT
      ensures probed == old(probed) + r.probes
      ensures r.ok <==> r.probes != [] && r.probes[|r.probes| - 1] == Probed(Ready, false)
      ensures forall i | 0 <= i < |r.probes| - 1 :: r.probes[i].cut || r.probes[i].outcome != Ready
      ensures r.error == Unhealthy ==> now >= old(now) + timeout
      ensures r.error in {NoError, Unhealthy, Cancelled} && Told(r) && r.probes != []
    {
      var began, deadline := now, now + timeout;
      var probes: seq<Probed> := [];
      while true
        invariant began <= now <= deadline + CANCEL_LIMIT && (probes == [] ==> now == began < deadline)
        invariant probed == old(probed) + probes
        invariant forall i | 0 <= i < |probes| :: probes[i].cut || probes[i].outcome != Ready
        decreases deadline + CANCEL_LIMIT + POLL - now
      {
        var remaining := deadline - now;
        if remaining <= 0 {
          return Report(check, false, if probes != [] then Unhealthy else NotStarted, began, now, probes);
        }
        var probe := RunCommand(Smaller(PROBE_LIMIT, remaining));
        Associative(old(probed), probes, [probe]);
        probes := probes + [probe];
        if !probe.cut && probe.outcome == Ready {
          return Report(check, true, NoError, began, now, probes);
        }
        if now > deadline {
          return Report(check, false, Unhealthy, began, now, probes);
        }
        var goOn := Pause();
        if !goOn {
          return Report(check, false, Cancelled, began, now, probes);
        }
      }
    }

    /** One check with the time that is left. */
    method WaitForCheck(check: Check, remaining: nat, composeFile: bool) returns (r: Report)
      requires remaining > 0
      modifies this
      ensures r.check == check && r.began == old(now) && r.ended == now && InTime(r, old(now) + remaining)
      ensures Told(r) && probed == old(probed) + r.probes && Dispatched(r, old(now) + remaining, composeFile)
    {
      match check.kind
      case Url => r := WaitForProbe(check, remaining);
      case Tcp => r := WaitForProbe(check, remaining);
      case Command => r := WaitForCommand(check, remaining);
      case Container => r := WaitForCommand(check, remaining);
      case ComposeService =>
        if composeFile {
          r := WaitForCommand(check, remaining);
        } else {
          r := Report(check, false, NoComposeFile, now, now, []);
        }
      case Unsupported => r := Report(check, false, UnsupportedKind, now, now, []);
    }

    /** One check of the list, or the error of one that the deadline has overtaken. */
    method CheckOrGiveUp(check: Check, deadline: int, composeFile: bool) returns (r: Report)
      modifies this
      ensures r.check == check && r.began == old(now) && r.ended == now && Kept(r, deadline)
      ensures now == old(now) || now <= deadline + PROBE_LIMIT + POLL
      ensures old(now) <= now && Told(r) && probed == old(probed) + r.probes && Dispatched(r, deadline, composeFile)
    {
      if deadline - now <= 0 {
        r := Report(check, false, NotStarted, now, now, []);
      } else {
        r := WaitForCheck(check, deadline - now, composeFile);
      }
    }

    /**
     * waitEnvironmentRestoreHealthChecks: however many checks there are, all of them together end at most 2.25
     * seconds after the deadline, and every one that is configured has its report, in order.
     */
    method WaitForAll(checks: seq<Check>, timeout: int, composeFile: bool) returns (out: seq<Report>)
      modifies this
      ensures old(now) <= now && (now == old(now) || now <= old(now) + timeout + 2250)
      ensures AllKept(out, old(now) + timeout, composeFile, now)
      ensures Filter(ChecksOf(out), Configured) == Filter(checks, Configured)
      ensures probed == old(probed) + AllProbes(out)
    {
      out := CheckEach(checks, now + timeout, composeFile);
    }

    /** The loop over the checks. */
    method CheckEach(checks: seq<Check>, deadline: int, composeFile: bool) returns (out: seq<Report>)
      modifies this
      ensures old(now) <= now && (now == old(now) || now <= deadline + PROBE_LIMIT + POLL)
      ensures Waited(out, checks, deadline, composeFile, now, old(probed), probed)
    {
      out := [];
      ghost var start := probed;
      NothingWaited(deadline, composeFile, now, start);
      assert checks[..0] == [];
      for i := 0 to |checks|
        invariant old(now) <= now && (now == old(now) || now <= deadline + PROBE_LIMIT + POLL)
        invariant Waited(out, checks[..i], deadline, composeFile, now, start, probed)
      {
        out := CheckNext(out, checks[i], deadline, composeFile, checks[..i], start);
        OneMoreCheck(checks, i);
      }
      assert checks[..|checks|] == checks;
    }

    /** One more check: skipped if it is not configured, as long as there is time. */
    method CheckNext(out: seq<Report>, check: Check, deadline: int, composeFile: bool, ghost done: seq<Check>, ghost start: seq<Probed>)
      returns (next: seq<Report>)
      requires Waited(out, done, deadline, composeFile, now, start, probed)
      modifies this
      ensures old(now) <= now && (now == old(now) || now <= deadline + PROBE_LIMIT + POLL)
      ensures Waited(next, done + [check], deadline, composeFile, now, start, probed)
    {
      if deadline - now > 0 && !Configured(check) {
        FilterSnoc(done, check, Configured);
        return out;
      }
      ghost var before, earlier := now, probed;
      var r := CheckOrGiveUp(check, deadline, composeFile);
      WaitedOn(out, done, deadline, composeFile, before, start, earlier, r);
      return out + [r];
    }
  }

  /** The probes of all checks, one check after the other. */
  function AllProbes(reports: seq<Report>): seq<Probed>
    decreases |reports|
  {
    if reports == [] then [] else AllProbes(reports[..|reports| - 1]) + reports[|reports| - 1].probes
  }

  lemma OneMoreProbed(out: seq<Report>, r: Report)
    ensures AllProbes(out + [r]) == AllProbes(out) + r.probes
  {
    assert (out + [r])[..|out|] == out;
  }

  function ChecksOf(reports: seq<Report>): (r: seq<Check>)
    ensures |r| == |reports| && forall i | 0 <= i < |r| :: r[i] == reports[i].check
  {
    seq(|reports|, i requires 0 <= i < |reports| => reports[i].check)
  }

  lemma OneMoreKept(out: seq<Report>, deadline: int, composeFile: bool, now: int, r: Report)
    requires AllKept(out, deadline, composeFile, now) && Kept(r, deadline) && Told(r) && Dispatched(r, deadline, composeFile) && now <= r.began && r.began <= r.ended
    ensures AllKept(out + [r], deadline, composeFile, r.ended)
  {
  }

  /** After these checks: each report kept and told, one for every configured check, and their probes are all there were. */
  ghost predicate Waited(out: seq<Report>, checks: seq<Check>, deadline: int, composeFile: bool, now: int, before: seq<Probed>, probed: seq<Probed>) {
    && AllKept(out, deadline, composeFile, now) && Filter(ChecksOf(out), Configured) == Filter(checks, Configured)
    && probed == before + AllProbes(out)
  }

  lemma OneMoreCheck(checks: seq<Check>, i: nat)
    requires i < |checks|
    ensures checks[..i] + [checks[i]] == checks[..i + 1]
  {
  }

  lemma NothingWaited(deadline: int, composeFile: bool, now: int, before: seq<Probed>)
    ensures Waited([], [], deadline, composeFile, now, before, before)
  {
    assert before + [] == before;
  }

  lemma WaitedOn(out: seq<Report>, checks: seq<Check>, deadline: int, composeFile: bool, now: int, before: seq<Probed>, probed: seq<Probed>, r: Report)
    requires Waited(out, checks, deadline, composeFile, now, before, probed) && Kept(r, deadline) && Told(r) && Dispatched(r, deadline, composeFile) && now <= r.began <= r.ended
    ensures Waited(out + [r], checks + [r.check], deadline, composeFile, r.ended, before, probed + r.probes)
  {
    FilterSnoc(checks, r.check, Configured);
    OneMoreReport(out, r);
    OneMoreKept(out, deadline, composeFile, now, r);
    OneMoreProbed(out, r);
    Associative(before, AllProbes(out), r.probes);
  }

  lemma OneMoreReport(out: seq<Report>, r: Report)
    ensures Filter(ChecksOf(out + [r]), Configured) == Filter(ChecksOf(out), Configured) + if Configured(r.check) then [r.check] else []
  {
    assert ChecksOf(out + [r]) == ChecksOf(out) + [r.check];
    FilterSnoc(ChecksOf(out), r.check, Configured);
  }

  lemma ProbesFit(probes: nat, timeout: nat)
    requires POLL * probes <= timeout + POLL
    ensures probes + 1 <= timeout / POLL + 2
  {
  }

  lemma FilterSnoc<T>(s: seq<T>, x: T, keep: T -> bool)
    ensures Filter(s + [x], keep) == Filter(s, keep) + if keep(x) then [x] else []
  {
    FilterAppend(s, [x], keep);
    FilterCons(x, [], keep);
    assert [x] + [] == [x];
  }
}
