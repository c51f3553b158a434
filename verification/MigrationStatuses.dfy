/** Writing the statuses of a run back into the component graph, and what is pending afterwards. */
module MigrationStatuses {
  import opened Options
  import opened Text
  import opened StableSort
  import opened MigrationSelection
  import P = MigrationProtocol
  import B = MigrationBatch

  predicate StatusComplete(status: string) {
    TrimSpace(status) in {"applied", "already-applied", "baseline", "baseline-already-recorded"}
  }

  /** environmentMigrationPendingItems. */
  function Pending(items: seq<Migration>): seq<Migration> {
    Filter(items, (x: Migration) => !StatusComplete(x.status))
  }

  /** What a run reports about one migration. */
  datatype Result = Result(owner: string, assetID: string, status: string, ok: bool)

  type Statuses = map<AssetKey, string>

  /** The result tells that the asset's migration is complete. */
  predicate Reports(complete: string -> bool, r: Result, key: AssetKey) {
    r.ok && complete(r.status) && key == AssetKey(r.owner, r.assetID)
  }

  predicate Reported(complete: string -> bool, results: seq<Result>, key: AssetKey) {
    exists i :: 0 <= i < |results| && Reports(complete, results[i], key)
  }

  lemma OneMoreReported(complete: string -> bool, results: seq<Result>, key: AssetKey)
    requires results != []
    ensures var n := |results| - 1;
      Reported(complete, results, key) <==> Reported(complete, results[..n], key) || Reports(complete, results[n], key)
  {
    var n := |results| - 1;
    if Reported(complete, results[..n], key) {
      var i :| 0 <= i < n && Reports(complete, results[..n][i], key);
      assert Reports(complete, results[i], key);
    }
    if Reported(complete, results, key) {
      var i :| 0 <= i < |results| && Reports(complete, results[i], key);
      assert i < n ==> Reports(complete, results[..n][i], key);
    }
  }

  function StatusesBy(complete: string -> bool, results: seq<Result>): (m: Statuses)
    ensures forall k | k in m :: complete(m[k])
  {
    if results == [] then map[]
    else
      var m, last := StatusesBy(complete, results[..|results| - 1]), results[|results| - 1];
      if last.ok && complete(last.status) then m[AssetKey(last.owner, last.assetID) := last.status] else m
  }

  lemma {:induction false} StatusesByMembers(complete: string -> bool, results: seq<Result>, key: AssetKey)
    ensures key in StatusesBy(complete, results) <==> Reported(complete, results, key)
  {
    if results != [] {
      StatusesByMembers(complete, results[..|results| - 1], key);
      OneMoreReported(complete, results, key);
    }
  }

  function StatusesOf(results: seq<Result>): (m: Statuses)
    ensures forall k | k in m :: StatusComplete(m[k])
    ensures forall k :: k in m <==> Reported(StatusComplete, results, k)
  {
    assert forall k :: k in StatusesBy(StatusComplete, results) <==> Reported(StatusComplete, results, k) by {
      forall k ensures k in StatusesBy(StatusComplete, results) <==> Reported(StatusComplete, results, k) {
        StatusesByMembers(StatusComplete, results, k);
      }
    }
    StatusesBy(StatusComplete, results)
  }

  function WithStatus(asset: Asset, status: string): Asset {
    asset.(summary := AssetMetadata(asset).(status := status))
  }

  function KeyOf(asset: Asset): AssetKey {
    AssetKey(asset.owner, asset.assetID)
  }

  /** The asset after the write-back. */
  function Updated(statuses: Statuses): Asset -> Asset {
    (asset: Asset) =>
      if Writable(statuses, asset) then WithStatus(asset, statuses[KeyOf(asset)]) else asset
  }

  /** The migration after the write-back: only its status may differ. */
  function Relabelled(statuses: Statuses): Migration -> Migration {
    (x: Migration) =>
      var key := AssetKey(x.owner, x.assetID);
      if key in statuses then x.(status := statuses[key]) else x
  }

  method CollectStatuses(results: seq<Result>) returns (statusByAsset: Statuses)
    ensures statusByAsset == StatusesOf(results)
  {
    statusByAsset := map[];
    for i := 0 to |results|
      invariant statusByAsset == StatusesBy(StatusComplete, results[..i])
    {
      assert results[..i + 1][..i] == results[..i];
      if results[i].ok && StatusComplete(results[i].status) {
        statusByAsset := statusByAsset[AssetKey(results[i].owner, results[i].assetID) := results[i].status];
      }
    }
    assert results[..|results|] == results;
  }

  predicate Writable(statuses: Statuses, asset: Asset) {
    KeyOf(asset) in statuses && IsMigration(asset)
  }

  /** persistEnvironmentMigrationTargetStatuses: updates the assets in place. */
  method PersistStatuses(statusByAsset: Statuses, assets: array<Asset>) returns (changed: bool)
    modifies assets
    ensures assets[..] == Map(old(assets[..]), Updated(statusByAsset))
    ensures changed <==> exists i | 0 <= i < assets.Length :: Writable(statusByAsset, old(assets[i]))
  {
    changed := false;
    for index := 0 to assets.Length
      invariant forall i | 0 <= i < index :: assets[i] == Updated(statusByAsset)(old(assets[i]))
      invariant forall i | index <= i < assets.Length :: assets[i] == old(assets[i])
      invariant changed <==> exists i | 0 <= i < index :: Writable(statusByAsset, old(assets[i]))
    {
      var asset := assets[index];
      if Writable(statusByAsset, asset) {
        assets[index] := WithStatus(asset, statusByAsset[KeyOf(asset)]);
        changed := true;
      }
    }
  }

  /* ---------- what the write-back does to every selection ---------- */

  lemma MetadataIsSettled(asset: Asset, status: string)
    ensures AssetMetadata(WithStatus(asset, status)) == AssetMetadata(asset).(status := status)
  {
  }

  lemma {:induction false} LookupUpdated(assets: seq<Asset>, key: AssetKey, statuses: Statuses)
    ensures var found := Lookup(assets, key);
            Lookup(Map(assets, Updated(statuses)), key) ==
              if found.Some? then Some(Updated(statuses)(found.value)) else None
  {
    if assets != [] {
      var n := |assets| - 1;
      assert Map(assets, Updated(statuses))[..n] == Map(assets[..n], Updated(statuses));
      LookupUpdated(assets[..n], key, statuses);
      if KeyOf(assets[n]) in statuses {
        MetadataIsSettled(assets[n], statuses[KeyOf(assets[n])]);
      }
    }
  }

  lemma ItemUpdated(asset: Asset, provider: string, database: string, statuses: Statuses)
    ensures var item := ItemFromAsset(asset, provider, database);
            ItemFromAsset(Updated(statuses)(asset), provider, database) ==
              if item.Some? then Some(Relabelled(statuses)(item.value)) else None
  {
    if KeyOf(asset) in statuses {
      MetadataIsSettled(asset, statuses[KeyOf(asset)]);
    }
  }

  lemma {:induction false} ReferredUpdated(assets: seq<Asset>, dep: Dependency, assetIDs: seq<string>, database: string, statuses: Statuses)
    ensures ReferredAll(Map(assets, Updated(statuses)), dep, assetIDs, database) ==
            Map(ReferredAll(assets, dep, assetIDs, database), Relabelled(statuses))
  {
    if assetIDs != [] {
      var n := |assetIDs| - 1;
      ReferredUpdated(assets, dep, assetIDs[..n], database, statuses);
      var key := AssetKey(dep.consumer, assetIDs[n]);
      LookupUpdated(assets, key, statuses);
      var found := Lookup(assets, key);
      if found.Some? {
        ItemUpdated(found.value, dep.provider, database, statuses);
      }
      MapAppend(ReferredAll(assets, dep, assetIDs[..n], database), Referred(assets, dep, assetIDs[n], database), Relabelled(statuses));
    }
  }

  lemma MapAppend<T, U>(s: seq<T>, t: seq<T>, f: T -> U)
    ensures Map(s + t, f) == Map(s, f) + Map(t, f)
  {
  }

  lemma {:induction false} CandidatesUpdated(assets: seq<Asset>, dependencies: seq<Dependency>, filter: Edge, database: string, statuses: Statuses)
    ensures Candidates(Map(assets, Updated(statuses)), dependencies, filter, database) ==
            Map(Candidates(assets, dependencies, filter, database), Relabelled(statuses))
  {
    if dependencies != [] {
      var n := |dependencies| - 1;
      var dep := dependencies[n];
      CandidatesUpdated(assets, dependencies[..n], filter, database, statuses);
      ReferredUpdated(assets, dep, dep.assetIDs, database, statuses);
      MapAppend(Candidates(assets, dependencies[..n], filter, database), ReferredAll(assets, dep, dep.assetIDs, database), Relabelled(statuses));
    }
  }

  /** Relabelling leaves the order alone, and whether a migration is up to a version. */
  lemma RelabelledStands(statuses: Statuses, a: Migration, b: Migration)
    ensures LEQ(Relabelled(statuses)(a), Relabelled(statuses)(b)) == LEQ(a, b)
  {
  }

  lemma RelabelledIsUpTo(statuses: Statuses, x: Migration, through: string)
    ensures UpTo(through)(Relabelled(statuses)(x)) == UpTo(through)(x)
  {
  }

  lemma FilterRelabelled(items: seq<Migration>, statuses: Statuses, through: string)
    ensures Filter(Map(items, Relabelled(statuses)), UpTo(through)) == Map(Filter(items, UpTo(through)), Relabelled(statuses))
  {
    forall x | x in items ensures UpTo(through)(Relabelled(statuses)(x)) == UpTo(through)(x) {
      RelabelledIsUpTo(statuses, x, through);
    }
    FilterMap(items, Relabelled(statuses), UpTo(through));
  }

  lemma SortRelabelled(items: seq<Migration>, statuses: Statuses)
    ensures Sort(LEQ, Map(items, Relabelled(statuses))) == Map(Sort(LEQ, items), Relabelled(statuses))
  {
    forall a, b | a in items && b in items ensures LEQ(Relabelled(statuses)(a), Relabelled(statuses)(b)) == LEQ(a, b) {
      RelabelledStands(statuses, a, b);
    }
    SortMap(LEQ, items, Relabelled(statuses));
  }

  /**
   For every edge filter, database and through-version the selection after the write-back is the
   selection before it, with nothing but the statuses of the written assets changed.
   */
  lemma WriteBackOnlyRelabels(graph: Graph, statuses: Statuses, filter: Edge, database: string, through: string)
    ensures Select(graph.(assets := Map(graph.assets, Updated(statuses))), filter, database, through) ==
            Map(Select(graph, filter, database, through), Relabelled(statuses))
  {
    var candidates := Candidates(graph.assets, graph.dependencies, filter, database);
    CandidatesUpdated(graph.assets, graph.dependencies, filter, database, statuses);
    FilterRelabelled(candidates, statuses, through);
    SortRelabelled(Filter(candidates, UpTo(through)), statuses);
  }

  /**
   After the write-back nothing is pending in a selection if and only if the run reported each of
   its migrations as complete or it was complete before.
   */
  lemma NothingPendingAfterSuccess(graph: Graph, results: seq<Result>, filter: Edge, database: string, through: string)
    ensures var statuses := StatusesOf(results);
            var graph' := graph.(assets := Map(graph.assets, Updated(statuses)));
            Pending(Select(graph', filter, database, through)) == [] <==>
              forall x | x in Select(graph, filter, database, through) ::
                AssetKey(x.owner, x.assetID) in statuses || StatusComplete(x.status)
  {
    var statuses := StatusesOf(results);
    var selected := Select(graph, filter, database, through);
    WriteBackOnlyRelabels(graph, statuses, filter, database, through);
    PendingAfterRelabelling(selected, statuses);
  }

  lemma PendingAfterRelabelling(items: seq<Migration>, statuses: Statuses)
    requires forall k | k in statuses :: StatusComplete(statuses[k])
    ensures Pending(Map(items, Relabelled(statuses))) == [] <==>
              forall x | x in items :: AssetKey(x.owner, x.assetID) in statuses || StatusComplete(x.status)
  {
    var items' := Map(items, Relabelled(statuses));
    FilterEmpty(items', (x: Migration) => !StatusComplete(x.status));
    forall x | x in items
      ensures StatusComplete(Relabelled(statuses)(x).status) <==>
              AssetKey(x.owner, x.assetID) in statuses || StatusComplete(x.status)
      ensures Relabelled(statuses)(x) in items'
    {
      var i :| 0 <= i < |items| && items[i] == x;
      assert items'[i] == Relabelled(statuses)(x);
    }
    forall y | y in items' ensures exists x | x in items :: y == Relabelled(statuses)(x) {
      var i :| 0 <= i < |items'| && items'[i] == y;
      assert y == Relabelled(statuses)(items[i]);
    }
  }

  lemma {:induction false} FilterEmpty<T>(s: seq<T>, keep: T -> bool)
    ensures Filter(s, keep) == [] <==> forall x | x in s :: !keep(x)
  {
    if s != [] {
      FilterEmpty(s[1..], keep);
    }
  }

  /* ---------- the run whose statuses are written back ---------- */

  /** The migration as it is sent to the target, for the edge and with the preconditions of its metadata. */
  function ItemOf(edge: Edge, preconditions: Migration -> seq<P.Precondition>, x: Migration): P.Item {
    P.Item(P.Key(FirstNonEmpty([x.environment, "unknown"]), edge.owner, edge.provider, x.database, x.version),
           x.assetID, x.checksum, x.content, preconditions(x))
  }

  function ItemsOf(edge: Edge, preconditions: Migration -> seq<P.Precondition>, xs: seq<Migration>): (items: seq<P.Item>)
    ensures |items| == |xs|
  {
    seq(|xs|, i requires 0 <= i < |xs| => ItemOf(edge, preconditions, xs[i]))
  }

  function StatusText(reported: P.Reported): string {
    match reported
    case Applied => "applied"
    case AlreadyApplied => "already-applied"
    case Baselined => "baseline"
    case BaselineAlreadyRecorded => "baseline-already-recorded"
  }

  /** One line of the report: pending until the migration is done; one that was not reached keeps its status. */
  function ResultAt(xs: seq<Migration>, phases: seq<P.Phase>, i: nat): Result
    requires i < |xs|
  {
    var x := xs[i];
    if i >= |phases| then Result(x.owner, x.assetID, x.status, false)
    else Result(x.owner, x.assetID, if phases[i].Done? then StatusText(phases[i].reported) else "pending", phases[i].Done?)
  }

  function ResultsOf(xs: seq<Migration>, phases: seq<P.Phase>): (results: seq<Result>)
    ensures |results| == |xs| && forall i | 0 <= i < |xs| :: results[i] == ResultAt(xs, phases, i)
  {
    seq(|xs|, i requires 0 <= i < |xs| => ResultAt(xs, phases, i))
  }

  lemma DoneIsComplete(reported: P.Reported)
    ensures StatusComplete(StatusText(reported))
  {
    assert Trimmed(StatusText(reported));
  }

  /** Some migration of the same asset was done. */
  predicate WasDone(xs: seq<Migration>, phases: seq<P.Phase>, key: AssetKey) {
    exists i :: 0 <= i < |xs| && i < |phases| && phases[i].Done? && AssetKey(xs[i].owner, xs[i].assetID) == key
  }

  lemma ReportedAreDone(xs: seq<Migration>, phases: seq<P.Phase>, key: AssetKey)
    ensures key in StatusesOf(ResultsOf(xs, phases)) <==> WasDone(xs, phases, key)
  {
    var results := ResultsOf(xs, phases);
    forall i | 0 <= i < |xs|
      ensures Reports(StatusComplete, results[i], key) <==> i < |phases| && phases[i].Done? && AssetKey(xs[i].owner, xs[i].assetID) == key
    {
      ResultReports(xs, phases, i, key);
    }
  }

  lemma ResultReports(xs: seq<Migration>, phases: seq<P.Phase>, i: nat, key: AssetKey)
    requires i < |xs|
    ensures Reports(StatusComplete, ResultAt(xs, phases, i), key) <==>
            i < |phases| && phases[i].Done? && AssetKey(xs[i].owner, xs[i].assetID) == key
  {
    if i < |phases| && phases[i].Done? {
      DoneIsComplete(phases[i].reported);
    }
  }

  /**
   After a run of the selection, finished or not, nothing of it is pending if and only if each of its migrations was
   done by the run or had been complete before.
   */
  lemma NothingPendingExactly(graph: Graph, phases: seq<P.Phase>, filter: Edge, database: string, through: string)
    ensures var selected := Select(graph, filter, database, through);
            var statuses := StatusesOf(ResultsOf(selected, phases));
            var graph' := graph.(assets := Map(graph.assets, Updated(statuses)));
            Pending(Select(graph', filter, database, through)) == [] <==>
              forall x | x in selected :: WasDone(selected, phases, AssetKey(x.owner, x.assetID)) || StatusComplete(x.status)
  {
    var selected := Select(graph, filter, database, through);
    NothingPendingAfterSuccess(graph, ResultsOf(selected, phases), filter, database, through);
    forall x | x in selected
      ensures AssetKey(x.owner, x.assetID) in StatusesOf(ResultsOf(selected, phases)) <==>
              WasDone(selected, phases, AssetKey(x.owner, x.assetID))
    {
      ReportedAreDone(selected, phases, AssetKey(x.owner, x.assetID));
    }
  }

  /** So a run that gets through, with whatever retries, leaves nothing pending. */
  lemma CompletedRunLeavesNothingPending(graph: Graph, filter: Edge, database: string, through: string,
                                         preconditions: Migration -> seq<P.Precondition>, db: P.Database, baseline: bool,
                                         outcomes: seq<seq<P.Outcome>>)
    requires B.Completed(db, ItemsOf(filter, preconditions, Select(graph, filter, database, through)), baseline, outcomes)
    ensures var selected := Select(graph, filter, database, through);
            var phases := B.Interrupted(db, ItemsOf(filter, preconditions, selected), baseline, outcomes).1;
            var statuses := StatusesOf(ResultsOf(selected, phases));
            var graph' := graph.(assets := Map(graph.assets, Updated(statuses)));
            Pending(Select(graph', filter, database, through)) == []
  {
    var selected := Select(graph, filter, database, through);
    var phases := B.Interrupted(db, ItemsOf(filter, preconditions, selected), baseline, outcomes).1;
    AllDoneLeavesNothing(graph, phases, filter, database, through);
  }

  lemma AllDoneLeavesNothing(graph: Graph, phases: seq<P.Phase>, filter: Edge, database: string, through: string)
    requires |phases| == |Select(graph, filter, database, through)| && forall p | p in phases :: p.Done?
    ensures var selected := Select(graph, filter, database, through);
            var graph' := graph.(assets := Map(graph.assets, Updated(StatusesOf(ResultsOf(selected, phases)))));
            Pending(Select(graph', filter, database, through)) == []
  {
    var selected := Select(graph, filter, database, through);
    NothingPendingExactly(graph, phases, filter, database, through);
    forall x | x in selected ensures WasDone(selected, phases, AssetKey(x.owner, x.assetID)) {
      var i :| 0 <= i < |selected| && selected[i] == x;
      assert phases[i] in phases;
    }
  }
}
