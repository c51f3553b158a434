/** The one replica that speaks for each Compose service, and when its verdict depends on the order of the list. */
module Status {
  import opened Options

  /** One container as `docker compose ps` lists it; oneOff tells a container made by `docker compose run`. */
  datatype Replica = Replica(service: string, container: string, oneOff: bool, state: string, health: string, exitCode: Option<int>)

  predicate Healthy(r: Replica) {
    r.state == "running" && (r.health == "" || r.health == "healthy")
  }

  predicate Completed(r: Replica) {
    r.state == "exited" && r.exitCode == Some(0)
  }

  /** preferComposeServiceStatusReport. */
  predicate Prefer(existing: Replica, incoming: Replica) {
    if existing.oneOff != incoming.oneOff then existing.oneOff && !incoming.oneOff
    else if Healthy(existing) != Healthy(incoming) then Healthy(existing) && !Healthy(incoming)
    else false
  }

  /** addComposeServiceStatusReport. */
  method Add(out: map<string, Replica>, incoming: Replica) returns (next: map<string, Replica>)
    ensures next == Added(out, incoming)
  {
    if incoming.service == "" {
      return out;
    }
    if incoming.service in out {
      if Prefer(out[incoming.service], incoming) {
        return out[incoming.service := incoming];
      }
      return out;
    }
    return out[incoming.service := incoming];
  }

  function Added(out: map<string, Replica>, incoming: Replica): map<string, Replica> {
    if incoming.service == "" then out
    else if incoming.service in out && !Prefer(out[incoming.service], incoming) then out
    else out[incoming.service := incoming]
  }

  /** What is kept for one service. */
  function Kept(list: seq<Replica>, service: string): Option<Replica>
    decreases |list|
  {
    if list == [] then None
    else
      var before, last := Kept(list[..|list| - 1], service), list[|list| - 1];
      if last.service != service || service == "" then before
      else if before.Some? && !Prefer(before.value, last) then before
      else Some(last)
  }

  /** parseComposeServiceStatusReports: one entry for each named service, whichever else are listed. */
  method Parse(list: seq<Replica>) returns (out: map<string, Replica>)
    ensures forall s :: (s in out <==> Kept(list, s).Some?) && (s in out ==> Kept(list, s) == Some(out[s]))
  {
    out := map[];
    for i := 0 to |list|
      invariant forall s :: (s in out <==> Kept(list[..i], s).Some?) && (s in out ==> Kept(list[..i], s) == Some(out[s]))
    {
      assert list[..i + 1][..i] == list[..i];
      out := Add(out, list[i]);
    }
    assert list[..|list|] == list;
  }

  /** Containers of the service itself come before one-off ones, and ones that are not healthy before healthy ones. */
  function Rank(r: Replica): nat {
    (if r.oneOff then 2 else 0) + (if Healthy(r) then 1 else 0)
  }

  /** The replicas that can speak for the service: those of the lowest rank. */
  predicate Candidate(list: seq<Replica>, service: string, r: Replica) {
    service != "" && r in list && r.service == service && forall q | q in list && q.service == service :: Rank(r) <= Rank(q)
  }

  /** Whatever is kept is a candidate; and something is kept exactly if the service is listed. */
  lemma {:induction false} KeptIsACandidate(list: seq<Replica>, service: string)
    ensures Kept(list, service).Some? <==> service != "" && exists r | r in list :: r.service == service
    ensures Kept(list, service).Some? ==> Candidate(list, service, Kept(list, service).value)
    decreases |list|
  {
    if list != [] {
      var n := |list| - 1;
      assert list == list[..n] + [list[n]];
      KeptIsACandidate(list[..n], service);
    }
  }

  lemma {:induction false} FirstIsKept(r: Replica, rest: seq<Replica>)
    requires r.service != "" && forall q | q in rest && q.service == r.service :: Rank(r) <= Rank(q)
    ensures Kept([r] + rest, r.service) == Some(r)
    decreases |rest|
  {
    if rest == [] {
      assert ([r] + rest)[..0] == [];
    } else {
      var n := |rest| - 1;
      assert ([r] + rest)[..1 + n] == [r] + rest[..n];
      FirstIsKept(r, rest[..n]);
    }
  }

  /** And every candidate is kept for some order of the list. */
  lemma CandidateCanBeKept(list: seq<Replica>, service: string, r: Replica) returns (order: seq<Replica>)
    requires Candidate(list, service, r)
    ensures multiset(order) == multiset(list) && Kept(order, service) == Some(r)
  {
    var i :| 0 <= i < |list| && list[i] == r;
    var rest := list[..i] + list[i + 1..];
    order := [r] + rest;
    assert list == list[..i] + [list[i]] + list[i + 1..];
    FirstIsKept(r, rest);
  }

  /** The verdict on a service, by whichever rule, is the same for every order of the list. */
  ghost predicate OrderIndependent(list: seq<Replica>, service: string, verdict: Replica -> bool) {
    forall order | multiset(order) == multiset(list) && Kept(order, service).Some? && Kept(list, service).Some? ::
      verdict(Kept(order, service).value) == verdict(Kept(list, service).value)
  }

  lemma SameCandidates(list: seq<Replica>, order: seq<Replica>, service: string, r: Replica)
    requires multiset(order) == multiset(list)
    ensures Candidate(list, service, r) <==> Candidate(order, service, r)
  {
    assert forall q :: q in list <==> q in multiset(list);
    assert forall q :: q in order <==> q in multiset(order);
  }

  /** The order of the list makes no difference to a verdict if and only if all candidates have the same. */
  lemma OrderIndependentExactly(list: seq<Replica>, service: string, verdict: Replica -> bool)
    ensures OrderIndependent(list, service, verdict) <==>
      forall a, b | Candidate(list, service, a) && Candidate(list, service, b) :: verdict(a) == verdict(b)
  {
    KeptIsACandidate(list, service);
    if OrderIndependent(list, service, verdict) {
      forall a | Candidate(list, service, a) ensures verdict(a) == verdict(Kept(list, service).value) {
        var order := CandidateCanBeKept(list, service, a);
      }
    }
    if forall a, b | Candidate(list, service, a) && Candidate(list, service, b) :: verdict(a) == verdict(b) {
      forall order | multiset(order) == multiset(list) && Kept(order, service).Some? && Kept(list, service).Some?
        ensures verdict(Kept(order, service).value) == verdict(Kept(list, service).value)
      {
        KeptIsACandidate(order, service);
        SameCandidates(list, order, service, Kept(order, service).value);
      }
    }
  }

  /** The replicas that count: those that are not one-off, or all if there are no others. */
  predicate Counts(list: seq<Replica>, service: string, r: Replica) {
    r in list && r.service == service && (r.oneOff ==> forall q | q in list && q.service == service :: q.oneOff)
  }

  /** Whether a service is healthy does not depend on the order: it is if and only if every replica that counts is. */
  lemma HealthyExactlyIfAllAre(list: seq<Replica>, service: string)
    requires Kept(list, service).Some?
    ensures Healthy(Kept(list, service).value) <==> forall r | Counts(list, service, r) :: Healthy(r)
    ensures OrderIndependent(list, service, Healthy)
  {
    KeptIsACandidate(list, service);
    OrderIndependentExactly(list, service, Healthy);
  }

  /** So a service with a replica that counts and is not running, or whose health is neither empty nor healthy, is not healthy. */
  lemma UnhealthyShows(list: seq<Replica>, service: string, r: Replica)
    requires Counts(list, service, r) && service != ""
    requires r.state != "running" || (r.health != "" && r.health != "healthy")
    ensures Kept(list, service).Some? && !Healthy(Kept(list, service).value)
  {
    KeptIsACandidate(list, service);
    HealthyExactlyIfAllAre(list, service);
  }

  /** And one all of whose replicas that count are running, each without a health check or healthy by it, is. */
  lemma RunningIsHealthy(list: seq<Replica>, service: string)
    requires service != "" && exists r | r in list :: r.service == service
    requires forall r | Counts(list, service, r) :: r.state == "running" && (r.health == "" || r.health == "healthy")
    ensures Kept(list, service).Some? && Healthy(Kept(list, service).value)
  {
    KeptIsACandidate(list, service);
    HealthyExactlyIfAllAre(list, service);
  }

  /** The verdict on a job, and on a service that needs a probe, in the words of the list. */
  lemma VerdictExactly(e: Expectation, r: Replica)
    ensures Verdict(e, r) <==>
      && (e.completed ==> r.state == "exited" && r.exitCode == Some(0))
      && (!e.completed ==> r.state == "running" && r.health in {"", "healthy"})
      && (e.application ==> r.health != "")
  {
  }

  /** A one-off container never speaks for a service that has others, and a healthy one for none that has an unhealthy one. */
  lemma OneOffsAreLast(list: seq<Replica>, service: string, q: Replica)
    requires Kept(list, service).Some? && q in list && q.service == service
    ensures var kept := Kept(list, service).value;
      && kept in list && kept.service == service && (!q.oneOff ==> !kept.oneOff)
      && (q.oneOff == kept.oneOff && (q.state != "running" || q.health !in {"", "healthy"}) ==>
            kept.state != "running" || kept.health !in {"", "healthy"})
  {
    KeptIsACandidate(list, service);
  }

  /** The rules a service is judged by once its expectation is known. */
  datatype Expectation = Expectation(completed: bool, application: bool)

  /** environmentStatusApplyComposeServiceExpectation, then environmentStatusApplyApplicationProbeRequirement. */
  predicate Verdict(e: Expectation, r: Replica) {
    (if e.completed then Completed(r) else Healthy(r)) && (e.application ==> r.health != "")
  }

  /**
   * A verdict without such rules is independent of the order. One that expects completion is if and only if the
   * candidates have all completed or all not; one that needs a health probe, if they all have one or all not.
   */
  lemma ExpectationOrderExactly(list: seq<Replica>, service: string, e: Expectation)
    ensures OrderIndependent(list, service, r => Verdict(e, r)) <==>
      forall a, b | Candidate(list, service, a) && Candidate(list, service, b) ::
        (e.completed ==> (Completed(a) && (e.application ==> a.health != "")) == (Completed(b) && (e.application ==> b.health != "")))
        && (!e.completed && e.application && Healthy(a) ==> (a.health == "") == (b.health == ""))
  {
    OrderIndependentExactly(list, service, r => Verdict(e, r));
    forall a, b | Candidate(list, service, a) && Candidate(list, service, b)
      ensures Healthy(a) == Healthy(b)
    {
      assert Rank(a) <= Rank(b) && Rank(b) <= Rank(a);
    }
  }

  /** Two replicas of a job, one of which failed: the verdict is that of the one listed first. */
  lemma FirstListedDecides(done: Replica, failed: Replica)
    requires done.service == failed.service != "" && !done.oneOff && !failed.oneOff
    requires Completed(done) && failed.state == "exited" && !Completed(failed)
    ensures var e := Expectation(true, false);
      Verdict(e, Kept([done, failed], done.service).value) && !Verdict(e, Kept([failed, done], done.service).value)
  {
    assert [done] + [failed] == [done, failed] && [failed] + [done] == [failed, done];
    FirstIsKept(done, [failed]);
    FirstIsKept(failed, [done]);
  }
}
