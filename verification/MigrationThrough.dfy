/**
 When the migrations up to a version are a prefix of the full, ordered selection, so that stopping there skips
 nothing that comes first.
 */
module MigrationThrough {
  import opened Options
  import opened Text
  import opened StableSort
  import opened MigrationSelection

  /** A migration beyond the version stands before one that is not: selecting up to the version would skip it. */
  predicate Skipped(a: Migration, b: Migration, through: string) {
    Before(a, b) && UpTo(through)(b) && !UpTo(through)(a)
  }

  ghost predicate NothingSkipped(candidates: seq<Migration>, through: string) {
    forall a, b | a in candidates && b in candidates :: !Skipped(a, b, through)
  }

  /** Migrations that the order does not tell apart are on the same side of every version. */
  lemma TiesAgree(a: Migration, b: Migration, through: string)
    requires !Before(a, b) && !Before(b, a)
    ensures UpTo(through)(a) == UpTo(through)(b)
  {
    LessTotal(a.provider, b.provider);
    LessTotal(a.owner, b.owner);
    LessTotal(a.version, b.version);
  }

  lemma FrontExactly(s: seq<Migration>, through: string)
    requires Sorted(LEQ, s)
    ensures KeptInFront(s, UpTo(through)) <==> NothingSkipped(s, through)
  {
    var keep := UpTo(through);
    if KeptInFront(s, keep) {
      forall a, b | a in s && b in s ensures !Skipped(a, b, through) {
        var i, j :| 0 <= i < |s| && 0 <= j < |s| && s[i] == a && s[j] == b;
        if j < i {
          assert LEQ(s[j], s[i]);
        }
      }
    }
    if NothingSkipped(s, through) {
      forall i, j | 0 <= i < j < |s| && keep(s[j]) ensures keep(s[i]) {
        assert LEQ(s[i], s[j]) && s[i] in s && s[j] in s;
        assert !Skipped(s[i], s[j], through);
        if !Before(s[i], s[j]) {
          TiesAgree(s[i], s[j], through);
        }
      }
    }
  }

  lemma FullSelectionHoldsAll(graph: Graph, filter: Edge, database: string)
    ensures forall x :: x in Select(graph, filter, database, "") <==> x in Candidates(graph.assets, graph.dependencies, filter, database)
  {
    var candidates := Candidates(graph.assets, graph.dependencies, filter, database);
    assert TrimSpace("") == "";
    KeepAll(candidates, UpTo(""));
    var full := Select(graph, filter, database, "");
    assert multiset(full) == multiset(candidates);
    forall x ensures x in full <==> x in candidates {
      assert x in full <==> x in multiset(full);
      assert x in candidates <==> x in multiset(candidates);
    }
  }

  /**
   For every graph, edge filter, database and version: the migrations up to the version are a prefix of the full
   selection if and only if none beyond it stands before one that is not.
   */
  lemma ThroughVersionIsPrefixExactly(graph: Graph, filter: Edge, database: string, through: string)
    ensures Select(graph, filter, database, through) <= Select(graph, filter, database, "") <==>
            NothingSkipped(Candidates(graph.assets, graph.dependencies, filter, database), through)
  {
    var full := Select(graph, filter, database, "");
    ThroughVersionFilters(graph, filter, database, through);
    ThroughVersionFilters(graph, filter, database, "");
    FullSelectionHoldsAll(graph, filter, database);
    FilterIsPrefixExactly(full, UpTo(through));
    FrontExactly(full, through);
  }

  /**
   The pairs on one edge that go wrong. With a number in the version: a migration with apply order zero whose
   version is beyond, before a numbered one that is not or before one that only its text puts behind. Without:
   versions are compared as texts, and the numbers put the later text first.
   */
  predicate Misplaced(a: Migration, b: Migration, through: string) {
    var limit := TrimSpace(through);
    var number := DefaultApplyOrder(limit);
    if limit == "" then false
    else if number == 0 then a.applyOrder < b.applyOrder && Less(limit, a.version) && !Less(limit, b.version)
    else
      && a.applyOrder == 0 && !UpTo(through)(a)
      && (0 < b.applyOrder <= number || (b.applyOrder == 0 && Less(a.version, b.version) && UpTo(through)(b)))
  }

  lemma BeforeOnOneEdge(a: Migration, b: Migration)
    requires a.provider == b.provider && a.owner == b.owner
    ensures Before(a, b) <==> EarlierItem(a.applyOrder, a.version, b.applyOrder, b.version)
  {
  }

  lemma UpToByItem(x: Migration, through: string)
    requires TrimSpace(through) != ""
    ensures UpTo(through)(x) <==>
      !ItemAfter(TrimSpace(through), DefaultApplyOrder(TrimSpace(through)), x.applyOrder, DefaultApplyOrder(x.version), x.version)
  {
  }

  lemma SkippedIsMisplaced(a: Migration, b: Migration, through: string)
    requires a.provider == b.provider && a.owner == b.owner
    ensures Skipped(a, b, through) <==> Misplaced(a, b, through)
  {
    var limit := TrimSpace(through);
    BeforeOnOneEdge(a, b);
    if limit != "" {
      UpToByItem(a, through);
      UpToByItem(b, through);
      ItemSkipped(limit, DefaultApplyOrder(limit), a.applyOrder, DefaultApplyOrder(a.version), a.version,
                  b.applyOrder, DefaultApplyOrder(b.version), b.version);
    }
  }

  predicate EarlierItem(orderA: int, versionA: string, orderB: int, versionB: string) {
    if orderA != orderB then orderA < orderB else Less(versionA, versionB)
  }

  /** Beyond the version, given the number that the digits of the item's own version spell. */
  predicate ItemAfter(limit: string, number: nat, order: int, spelled: nat, version: string) {
    var itemOrder := if order == 0 then spelled else order;
    if itemOrder != 0 && number != 0 then itemOrder > number else Less(limit, version)
  }

  lemma ItemSkipped(limit: string, number: nat, orderA: int, spelledA: nat, versionA: string, orderB: int, spelledB: nat, versionB: string)
    ensures var skipped := EarlierItem(orderA, versionA, orderB, versionB)
              && ItemAfter(limit, number, orderA, spelledA, versionA) && !ItemAfter(limit, number, orderB, spelledB, versionB);
            skipped <==>
            if number == 0 then orderA < orderB && Less(limit, versionA) && !Less(limit, versionB)
            else
              && orderA == 0 && ItemAfter(limit, number, orderA, spelledA, versionA)
              && (0 < orderB <= number ||
                  (orderB == 0 && Less(versionA, versionB) && !ItemAfter(limit, number, orderB, spelledB, versionB)))
  {
    if Less(limit, versionA) && Less(versionA, versionB) {
      LessTransitive(limit, versionA, versionB);
    }
  }

  /** With an edge fixed, that is: if and only if no two migrations of the edge are such a pair. */
  lemma EdgePrefixExactly(graph: Graph, filter: Edge, database: string, through: string)
    requires filter.owner != ""
    ensures var candidates := Candidates(graph.assets, graph.dependencies, filter, database);
            Select(graph, filter, database, through) <= Select(graph, filter, database, "") <==>
            forall a, b | a in candidates && b in candidates :: !Misplaced(a, b, through)
  {
    var candidates := Candidates(graph.assets, graph.dependencies, filter, database);
    ThroughVersionIsPrefixExactly(graph, filter, database, through);
    CandidatesBelong(graph.assets, graph.dependencies, filter, database);
    forall a, b | a in candidates && b in candidates ensures Skipped(a, b, through) <==> Misplaced(a, b, through) {
      SkippedIsMisplaced(a, b, through);
    }
  }

  /** In particular it is a prefix when all apply orders and the version's number are not zero. */
  lemma ThroughVersionIsPrefix(graph: Graph, filter: Edge, database: string, through: string)
    requires filter.owner != ""
    requires DefaultApplyOrder(TrimSpace(through)) != 0
    requires forall x | x in Candidates(graph.assets, graph.dependencies, filter, database) :: x.applyOrder != 0
    ensures Select(graph, filter, database, through) <= Select(graph, filter, database, "")
  {
    EdgePrefixExactly(graph, filter, database, through);
  }

  /** A graph with one edge and two migrations on it. */
  function TwoMigrations(x: Asset, y: Asset, provider: string): Graph {
    Graph([x, y], [Dependency(x.owner, provider, [x.assetID, y.assetID])])
  }

  lemma LookupLast(assets: seq<Asset>, last: Asset, key: AssetKey)
    requires AssetMetadata(last).version != ""
    ensures Lookup(assets + [last], key) == if AssetKey(last.owner, last.assetID) == key then Some(last) else Lookup(assets, key)
  {
    assert (assets + [last])[..|assets|] == assets;
  }

  lemma TwoLookups(x: Asset, y: Asset, key: AssetKey)
    requires IsMigration(x) && IsMigration(y)
    ensures Lookup([x, y], key) == if AssetKey(y.owner, y.assetID) == key then Some(y)
                                   else if AssetKey(x.owner, x.assetID) == key then Some(x) else None
  {
    assert [x, y] == [] + [x] + [y];
    LookupLast([], x, key);
    LookupLast([] + [x], y, key);
  }

  lemma BothFound(find: string -> Option<Migration>, idA: string, idB: string, a: Migration, b: Migration)
    requires find(idA) == Some(a) && find(idB) == Some(b)
    ensures FoundAll(find, [idA, idB]) == [a, b]
  {
    assert [idA, idB][..1] == [idA] && [idA][..0] == [];
    assert FoundAll(find, []) == [] && FoundAll(find, [idA]) == [] + [a];
    assert [] + [a] + [b] == [a, b];
  }

  lemma OneDependency(assets: seq<Asset>, dep: Dependency, filter: Edge, database: string)
    requires Wanted(filter, dep)
    ensures Candidates(assets, [dep], filter, database) == ReferredAll(assets, dep, dep.assetIDs, database)
  {
    assert [dep][..0] == [];
    assert Candidates(assets, [], filter, database) == [];
  }

  lemma BothAreCandidates(x: Asset, y: Asset, provider: string)
    requires x.owner == y.owner != "" && x.assetID != y.assetID && IsMigration(x) && IsMigration(y)
    ensures var graph := TwoMigrations(x, y, provider);
            Candidates(graph.assets, graph.dependencies, Edge(x.owner, provider), "") ==
            [MigrationOf(x, provider), MigrationOf(y, provider)]
  {
    var dep := Dependency(x.owner, provider, [x.assetID, y.assetID]);
    var index := map[AssetKey(x.owner, x.assetID) := x, AssetKey(y.owner, y.assetID) := y];
    forall key ensures (key in index <==> Lookup([x, y], key).Some?) && (key in index ==> Lookup([x, y], key) == Some(index[key])) {
      TwoLookups(x, y, key);
    }
    FoundInTheMap([x, y], index, dep, dep.assetIDs, "");
    BothFound(Finder(index, dep, ""), x.assetID, y.assetID, MigrationOf(x, provider), MigrationOf(y, provider));
    OneDependency([x, y], dep, Edge(x.owner, provider), "");
  }

  /**
   A migration without an order and without digits in its version, which is a later text than the number of the
   version asked for, comes first in the full selection and is skipped.
   */
  lemma ZeroOrderIsSkipped(x: Asset, y: Asset, provider: string, through: string)
    requires x.owner == y.owner != "" && x.assetID != y.assetID && IsMigration(x) && IsMigration(y)
    requires x.applyOrder == 0 == DefaultApplyOrder(x.summary.version) && Less(through, x.summary.version)
    requires TrimSpace(through) == through != "" && 0 < y.applyOrder <= DefaultApplyOrder(through)
    ensures var graph, edge := TwoMigrations(x, y, provider), Edge(x.owner, provider);
            !(Select(graph, edge, "", through) <= Select(graph, edge, "", ""))
  {
    var a, b := MigrationOf(x, provider), MigrationOf(y, provider);
    BothAreCandidates(x, y, provider);
    assert a in [a, b] && b in [a, b];
    assert Misplaced(a, b, through);
    EdgePrefixExactly(TwoMigrations(x, y, provider), Edge(x.owner, provider), "", through);
  }

  lemma NoDigits(version: string)
    requires forall c | c in version :: !('0' <= c <= '9')
    ensures DefaultApplyOrder(version) == 0
  {
    NothingKept(version, c => '0' <= c <= '9');
    assert Digits(version) == "";
  }

  lemma OneDigit(version: string)
    requires version == "1"
    ensures DefaultApplyOrder(version) == 1 && TrimSpace(version) == version
  {
    assert version[1..] == "" && Digits(version) == "1" && "1"[..0] == "";
  }

  /** Version "alpha", which gets no order when it is added, is skipped on the way to version "1". */
  lemma ZeroOrderBreaksThePrefix(x: Asset, y: Asset, provider: string)
    requires x.owner == y.owner != "" && x.assetID != y.assetID && IsMigration(x) && IsMigration(y)
    requires x.summary.version == "alpha" && x.applyOrder == DefaultApplyOrder(x.summary.version)
    requires y.summary.version == "1" && y.applyOrder == DefaultApplyOrder(y.summary.version)
    ensures var graph, edge := TwoMigrations(x, y, provider), Edge(x.owner, provider);
            !(Select(graph, edge, "", y.summary.version) <= Select(graph, edge, "", ""))
  {
    NoDigits(x.summary.version);
    OneDigit(y.summary.version);
    LaterText(y.summary.version, x.summary.version);
    ZeroOrderIsSkipped(x, y, provider, y.summary.version);
  }

  lemma LaterText(a: string, b: string)
    requires a != "" && b != "" && a[0] < b[0]
    ensures Less(a, b)
  {
  }
}
