/** The bounded log of restore attempts inside the summary of an environment. */
module Attempts {
  import T = Text

  const ATTEMPT_LIMIT: nat := 20
  const SUMMARY_MAX_BYTES: nat := 1024 * 1024

  /** A compacted attempt: its id and the length of its JSON. */
  datatype Attempt = Attempt(id: string, size: nat)

  /** The length of the JSON array of the attempts: brackets, elements and commas. */
  function ArraySize(attempts: seq<Attempt>): nat {
    if attempts == [] then 2
    else if |attempts| == 1 then 2 + attempts[0].size
    else attempts[0].size + 1 + ArraySize(attempts[1..])
  }

  /** It is the length of that text, for any elements of these sizes. */
  lemma {:induction false} ArraySizeIsTheLength(attempts: seq<Attempt>, texts: seq<string>)
    requires |texts| == |attempts| && forall i | 0 <= i < |texts| :: |texts[i]| == attempts[i].size
    ensures ArraySize(attempts) == |"[" + T.Join(texts, ',') + "]"|
  {
    if |attempts| > 1 {
      ArraySizeIsTheLength(attempts[1..], texts[1..]);
    }
  }

  /** The summary fits the Store; rest is the length of everything but the array. */
  predicate Fits(rest: nat, attempts: seq<Attempt>) {
    rest + ArraySize(attempts) <= SUMMARY_MAX_BYTES
  }

  predicate SuffixOf<T(==)>(s: seq<T>, all: seq<T>) {
    |s| <= |all| && s == all[|all| - |s|..]
  }

  function Capped(attempts: seq<Attempt>): (r: seq<Attempt>)
    ensures |r| == (if |attempts| > 20 then 20 else |attempts|) && SuffixOf(r, attempts)
  {
    if |attempts| > ATTEMPT_LIMIT then attempts[|attempts| - ATTEMPT_LIMIT..] else attempts
  }

  /** The longest suffix that fits, or the empty list. */
  function LongestFitting(rest: nat, attempts: seq<Attempt>): seq<Attempt> {
    if attempts == [] || Fits(rest, attempts) then attempts else LongestFitting(rest, attempts[1..])
  }

  /** Dropping the oldest attempts only makes the array smaller. */
  lemma {:induction false} SuffixIsSmaller(attempts: seq<Attempt>, k: nat)
    requires k <= |attempts|
    ensures ArraySize(attempts[k..]) <= ArraySize(attempts)
  {
    if k > 0 {
      assert attempts[1..][k - 1..] == attempts[k..];
      SuffixIsSmaller(attempts[1..], k - 1);
    }
  }

  /** It is a suffix, it fits if anything does, and every suffix that fits is part of it. */
  lemma {:induction false} LongestFittingIsLongest(rest: nat, attempts: seq<Attempt>)
    ensures var r := LongestFitting(rest, attempts);
      && SuffixOf(r, attempts)
      && (Fits(rest, r) <==> Fits(rest, []))
      && forall k | 0 <= k <= |attempts| && Fits(rest, attempts[k..]) :: |attempts| - k <= |r|
  {
    if attempts == [] {
    } else if Fits(rest, attempts) {
      assert attempts[|attempts|..] == [];
      SuffixIsSmaller(attempts, |attempts|);
    } else {
      LongestFittingIsLongest(rest, attempts[1..]);
      assert attempts[0..] == attempts;
      forall k | 0 <= k <= |attempts| && Fits(rest, attempts[k..]) ensures |attempts| - k <= |LongestFitting(rest, attempts)| {
        assert k > 0 && attempts[k..] == attempts[1..][k - 1..];
      }
    }
  }

  /** The trimming loop of environmentRestoreSummaryJSON. */
  method Trim(rest: nat, capped: seq<Attempt>) returns (attempts: seq<Attempt>)
    requires capped != []
    ensures attempts == LongestFitting(rest, capped)
  {
    attempts := capped;
    while !Fits(rest, attempts) && |attempts| > 1
      invariant |attempts| > 0 && LongestFitting(rest, capped) == LongestFitting(rest, attempts)
    {
      attempts := attempts[1..];
    }
    if !Fits(rest, attempts) {
      attempts := [];
    }
  }

  /** appendRestoreAttemptSummary; what is stored is compacted already, so that compacting it again keeps it. */
  method Append(stored: seq<Attempt>, attempt: Attempt) returns (out: seq<Attempt>)
    ensures out == Capped(stored + [attempt]) && out != []
    ensures |stored| < 20 ==> out == stored + [attempt]
    ensures |stored| >= 20 ==> |out| == 20 && out == stored[|stored| - 19..] + [attempt]
  {
    out := [];
    for i := 0 to |stored|
      invariant out == stored[..i]
    {
      out := out + [stored[i]];
    }
    out := out + [attempt];
    if |out| > ATTEMPT_LIMIT {
      out := out[|out| - ATTEMPT_LIMIT..];
    }
  }

  /** One restore: its attempt, and the length of the rest of its summary. */
  datatype Restore = Restore(attempt: Attempt, rest: nat)

  /** The Store refuses a summary that is too long even without any attempt. */
  predicate Accepted(r: Restore) {
    Fits(r.rest, [])
  }

  function Next(stored: seq<Attempt>, r: Restore): seq<Attempt> {
    if Accepted(r) then LongestFitting(r.rest, Capped(stored + [r.attempt])) else stored
  }

  /** environmentRestorePersistEnvironment: the summary is written unless it is refused. */
  method Persist(stored: seq<Attempt>, r: Restore) returns (next: seq<Attempt>, ok: bool)
    ensures ok == Accepted(r) && next == Next(stored, r)
    ensures ok ==> Fits(r.rest, next) && |next| <= ATTEMPT_LIMIT
    ensures ok ==> r.rest + ArraySize(next) <= 1048576 && |next| <= 20
    ensures ok <==> r.rest + 2 <= 1048576
  {
    var capped := Append(stored, r.attempt);
    var trimmed := Trim(r.rest, capped);
    LongestFittingIsLongest(r.rest, capped);
    ok := Fits(r.rest, trimmed);
    next := if ok then trimmed else stored;
  }

  /** What is stored after a sequence of restores of a new environment. */
  function Stored(restores: seq<Restore>): seq<Attempt>
    decreases |restores|
  {
    if restores == [] then [] else Next(Stored(restores[..|restores| - 1]), restores[|restores| - 1])
  }

  function AcceptedAttempts(restores: seq<Restore>): seq<Attempt>
    decreases |restores|
  {
    if restores == [] then []
    else
      var last := restores[|restores| - 1];
      AcceptedAttempts(restores[..|restores| - 1]) + if Accepted(last) then [last.attempt] else []
  }

  function AllAttempts(restores: seq<Restore>): (r: seq<Attempt>)
    ensures |r| == |restores| && forall i | 0 <= i < |r| :: r[i] == restores[i].attempt
  {
    seq(|restores|, i requires 0 <= i < |restores| => restores[i].attempt)
  }

  lemma SuffixAppend<T>(s: seq<T>, all: seq<T>, x: T)
    requires SuffixOf(s, all)
    ensures SuffixOf(s + [x], all + [x])
  {
  }

  lemma SuffixTransitive<T>(a: seq<T>, b: seq<T>, c: seq<T>)
    requires SuffixOf(a, b) && SuffixOf(b, c)
    ensures SuffixOf(a, c)
  {
  }

  /** Over any sequence of restores, at most 20 attempts are stored, and they are the last ones that were accepted. */
  lemma {:induction false} StoredAreTheLastAccepted(restores: seq<Restore>)
    ensures SuffixOf(Stored(restores), AcceptedAttempts(restores)) && |Stored(restores)| <= ATTEMPT_LIMIT
    decreases |restores|
  {
    if restores != [] {
      var init, last := restores[..|restores| - 1], restores[|restores| - 1];
      StoredAreTheLastAccepted(init);
      if Accepted(last) {
        var grown := Stored(init) + [last.attempt];
        SuffixAppend(Stored(init), AcceptedAttempts(init), last.attempt);
        LongestFittingIsLongest(last.rest, Capped(grown));
        SuffixTransitive(Stored(restores), Capped(grown), grown);
        SuffixTransitive(Stored(restores), grown, AcceptedAttempts(restores));
      }
    }
  }

  /** After each accepted restore they are the longest suffix of the capped list that fits. */
  lemma StoredAreTheLongestThatFits(restores: seq<Restore>)
    requires restores != [] && Accepted(restores[|restores| - 1])
    ensures var last := restores[|restores| - 1];
      var capped := Capped(Stored(restores[..|restores| - 1]) + [last.attempt]);
      && SuffixOf(Stored(restores), capped) && Fits(last.rest, Stored(restores))
      && forall k | 0 <= k <= |capped| && Fits(last.rest, capped[k..]) :: |capped| - k <= |Stored(restores)|
  {
    var last := restores[|restores| - 1];
    LongestFittingIsLongest(last.rest, Capped(Stored(restores[..|restores| - 1]) + [last.attempt]));
  }

  predicate LastAccepted(restores: seq<Restore>, n: nat) {
    n <= |restores| && forall i | |restores| - n <= i < |restores| :: Accepted(restores[i])
  }

  lemma {:induction false} LastAcceptedAreAll(restores: seq<Restore>, n: nat)
    requires LastAccepted(restores, n)
    ensures n <= |AcceptedAttempts(restores)|
    ensures AcceptedAttempts(restores)[|AcceptedAttempts(restores)| - n..] == AllAttempts(restores)[|restores| - n..]
    decreases |restores|
  {
    if n > 0 {
      var init, last := restores[..|restores| - 1], restores[|restores| - 1];
      LastAcceptedAreAll(init, n - 1);
      assert AllAttempts(restores)[|restores| - n..] == AllAttempts(init)[|init| - (n - 1)..] + [last.attempt];
    }
  }

  lemma {:induction false} AcceptedWasAccepted(restores: seq<Restore>, a: Attempt)
    requires a in AcceptedAttempts(restores)
    ensures exists i :: 0 <= i < |restores| && restores[i].attempt == a && Accepted(restores[i])
    decreases |restores|
  {
    var init, last := restores[..|restores| - 1], restores[|restores| - 1];
    if Accepted(last) && last.attempt == a {
      assert restores[|restores| - 1].attempt == a;
    } else {
      AcceptedWasAccepted(init, a);
      var i :| 0 <= i < |init| && init[i].attempt == a && Accepted(init[i]);
      assert restores[i] == init[i];
    }
  }

  /** An attempt that was accepted, in a list of different ones, is that of an accepted restore. */
  lemma OnlyAcceptedAreStored(restores: seq<Restore>, i: nat)
    requires forall i, j | 0 <= i < j < |restores| :: restores[i].attempt.id != restores[j].attempt.id
    requires i < |restores| && restores[i].attempt in AcceptedAttempts(restores)
    ensures Accepted(restores[i])
  {
    AcceptedWasAccepted(restores, restores[i].attempt);
    var k :| 0 <= k < |restores| && restores[k].attempt == restores[i].attempt && Accepted(restores[k]);
    assert k == i;
  }

  /**
   * They are the last of all attempts if and only if as many restores at the end were accepted; a refused summary
   * leaves a gap until the attempts before it are trimmed.
   */
  lemma StoredAreTheLastExactly(restores: seq<Restore>)
    requires forall i, j | 0 <= i < j < |restores| :: restores[i].attempt.id != restores[j].attempt.id
    ensures SuffixOf(Stored(restores), AllAttempts(restores)) <==> LastAccepted(restores, |Stored(restores)|)
  {
    var stored, all, n := Stored(restores), AllAttempts(restores), |Stored(restores)|;
    StoredAreTheLastAccepted(restores);
    if LastAccepted(restores, n) {
      LastAcceptedAreAll(restores, n);
    }
    if SuffixOf(stored, all) {
      forall i | |restores| - n <= i < |restores| ensures Accepted(restores[i]) {
        assert all[i] == stored[i - (|restores| - n)];
        OnlyAcceptedAreStored(restores, i);
      }
    }
  }

  lemma StoredAppend(restores: seq<Restore>, r: Restore)
    ensures Stored(restores + [r]) == Next(Stored(restores), r)
  {
    assert (restores + [r])[..|restores|] == restores;
  }

  /** A restore that fits together with what is stored is appended. */
  lemma FittingIsAppended(stored: seq<Attempt>, r: Restore)
    requires |stored| < ATTEMPT_LIMIT && Fits(r.rest, stored + [r.attempt])
    ensures Next(stored, r) == stored + [r.attempt]
  {
    var grown := stored + [r.attempt];
    SuffixIsSmaller(grown, |grown|);
    assert grown[|grown|..] == [];
  }

  /** A refused summary between two that fit leaves such a gap: the middle attempt is missing. */
  lemma RefusedSummaryLeavesAGap(a: Restore, b: Restore, c: Restore)
    requires Fits(a.rest, [a.attempt]) && !Accepted(b) && Fits(c.rest, [a.attempt, c.attempt])
    requires a.attempt != b.attempt
    ensures Stored([a, b, c]) == [a.attempt, c.attempt] && !SuffixOf(Stored([a, b, c]), AllAttempts([a, b, c]))
  {
    assert [] + [a] == [a] && [a] + [b] == [a, b] && [a, b] + [c] == [a, b, c];
    assert [] + [a.attempt] == [a.attempt] && [a.attempt] + [c.attempt] == [a.attempt, c.attempt];
    StoredAppend([], a);
    FittingIsAppended([], a);
    StoredAppend([a], b);
    StoredAppend([a, b], c);
    FittingIsAppended([a.attempt], c);
    assert AllAttempts([a, b, c])[1..] == [b.attempt, c.attempt];
  }
}
