/**
 Which migrations of a component graph a run selects, in which order, and how their statuses are
 written back into the graph.
 */
module MigrationSelection {
  import opened Options
  import opened Text
  import opened StableSort

  /** The migration part of an asset's summary. */
  datatype Metadata = Metadata(version: string, database: string, checksum: string, status: string, description: string)

  /** `contentDigest` stands for the SHA-256 of the inline content in hex. */
  datatype Asset = Asset(owner: string, assetID: string, environment: string, target: string, applyOrder: int,
                         content: string, sha256: string, contentDigest: string, summary: Metadata)

  datatype Dependency = Dependency(consumer: string, provider: string, assetIDs: seq<string>)

  datatype Graph = Graph(assets: seq<Asset>, dependencies: seq<Dependency>)

  datatype Edge = Edge(owner: string, provider: string)

  datatype Migration = Migration(assetID: string, environment: string, owner: string, provider: string, target: string,
                                 version: string, description: string, database: string, checksum: string,
                                 applyOrder: int, content: string, status: string)

  /* ---------- one asset ---------- */

  function AssetMetadata(asset: Asset): Metadata {
    if asset.summary.checksum == "" then asset.summary.(checksum := FirstNonEmpty([asset.sha256, asset.contentDigest]))
    else asset.summary
  }

  predicate IsMigration(asset: Asset) {
    AssetMetadata(asset).version != "" && AssetMetadata(asset).database != ""
  }

  function MigrationOf(asset: Asset, provider: string): Migration {
    var metadata := AssetMetadata(asset);
    Migration(asset.assetID, asset.environment, asset.owner, provider, asset.target,
              metadata.version, metadata.description, metadata.database,
              FirstNonEmpty([metadata.checksum, asset.sha256, asset.contentDigest]),
              asset.applyOrder, asset.content, metadata.status)
  }

  /** A migration is its asset's, with the recorded checksum unless that is blank. */
  lemma MigrationOfItsAsset(asset: Asset, provider: string)
    ensures var x := MigrationOf(asset, provider);
      && x.owner == asset.owner && x.assetID == asset.assetID && x.provider == provider && x.environment == asset.environment
      && x.target == asset.target && x.content == asset.content && x.applyOrder == asset.applyOrder
      && x.version == asset.summary.version && x.database == asset.summary.database && x.status == asset.summary.status
    ensures asset.summary.checksum != "" && TrimSpace(asset.summary.checksum) != "" ==>
      MigrationOf(asset, provider).checksum == asset.summary.checksum
  {
    if asset.summary.checksum != "" && TrimSpace(asset.summary.checksum) != "" {
      NotBlankIsFirst([asset.summary.checksum, asset.sha256, asset.contentDigest]);
    }
  }

  /** The key of an asset: owner and id, which the source joins with a NUL. */
  datatype AssetKey = AssetKey(owner: string, assetID: string)

  /* ---------- versions ---------- */

  const MAX_INT := 0x7FFF_FFFF_FFFF_FFFF

  function DigitsValue(digits: string): (n: nat)
    requires forall i | 0 <= i < |digits| :: '0' <= digits[i] <= '9'
  {
    if digits == "" then 0
    else 10 * DigitsValue(digits[..|digits| - 1]) + (digits[|digits| - 1] as int - '0' as int)
  }

  function Digits(version: string): (r: string)
    ensures forall i | 0 <= i < |r| :: '0' <= r[i] <= '9'
  {
    var r := Filter(version, c => '0' <= c <= '9');
    assert forall i | 0 <= i < |r| :: r[i] in r;
    r
  }

  /** The number spelled by the digits of a version; 0 if there are none or they overflow. */
  function DefaultApplyOrder(version: string): nat {
    var value := DigitsValue(Digits(version));
    if value > MAX_INT then 0 else value
  }

  /** The digits of a version are those of its parts, in order; each one counts ten times the ones after it. */
  lemma DigitsOfParts(a: string, b: string)
    ensures Digits(a + b) == Digits(a) + Digits(b)
  {
    FilterAppend(a, b, c => '0' <= c <= '9');
  }

  lemma DigitsCount(digits: string, digit: char)
    requires (forall i | 0 <= i < |digits| :: '0' <= digits[i] <= '9') && '0' <= digit <= '9'
    ensures DigitsValue(digits + [digit]) == 10 * DigitsValue(digits) + (digit as int - '0' as int)
  {
    assert (digits + [digit])[..|digits|] == digits;
  }

  /** A number that does not fit counts as none. */
  lemma LargeOrdersAreNone(version: string)
    ensures DefaultApplyOrder(version) == if DigitsValue(Digits(version)) >= 0x8000_0000_0000_0000 then 0 else DigitsValue(Digits(version))
  {
  }

  predicate VersionAfter(version: string, applyOrder: int, through: string) {
    var limit := TrimSpace(through);
    if limit == "" then false
    else
      var throughOrder := DefaultApplyOrder(limit);
      var itemOrder := if applyOrder == 0 then DefaultApplyOrder(version) else applyOrder;
      if itemOrder != 0 && throughOrder != 0 then itemOrder > throughOrder else Less(limit, version)
  }

  /* ---------- the order ---------- */

  /** compareEnvironmentMigrationItems(a, b) < 0. */
  predicate Before(a: Migration, b: Migration) {
    if a.provider != b.provider then Less(a.provider, b.provider)
    else if a.owner != b.owner then Less(a.owner, b.owner)
    else if a.applyOrder != b.applyOrder then a.applyOrder < b.applyOrder
    else Less(a.version, b.version)
  }

  const LEQ: (Migration, Migration) -> bool := (a, b) => !Before(b, a)

  lemma {:induction false} BeforeTransitive(a: Migration, b: Migration, c: Migration)
    requires !Before(b, a) && !Before(c, b)
    ensures !Before(c, a)
  {
    LessTotal(a.provider, b.provider);
    LessTotal(b.provider, c.provider);
    LessTotal(a.provider, c.provider);
    LessTotal(a.owner, b.owner);
    LessTotal(b.owner, c.owner);
    LessTotal(a.owner, c.owner);
    LessTotal(a.version, b.version);
    LessTotal(b.version, c.version);
    LessTotal(a.version, c.version);
    if Less(c.provider, a.provider) && Less(a.provider, b.provider) { LessTransitive(c.provider, a.provider, b.provider); }
    if Less(b.provider, c.provider) && Less(c.provider, a.provider) { LessTransitive(b.provider, c.provider, a.provider); }
    if Less(c.owner, a.owner) && Less(a.owner, b.owner) { LessTransitive(c.owner, a.owner, b.owner); }
    if Less(b.owner, c.owner) && Less(c.owner, a.owner) { LessTransitive(b.owner, c.owner, a.owner); }
    if Less(c.version, a.version) && Less(a.version, b.version) { LessTransitive(c.version, a.version, b.version); }
    if Less(b.version, c.version) && Less(c.version, a.version) { LessTransitive(b.version, c.version, a.version); }
  }

  lemma OrderIsTotal()
    ensures TotalPreorder(LEQ)
  {
    forall a: Migration, b: Migration ensures LEQ(a, b) || LEQ(b, a) {
      LessTotal(a.provider, b.provider);
      LessTotal(a.owner, b.owner);
      LessTotal(a.version, b.version);
    }
    forall a: Migration, b: Migration, c: Migration | LEQ(a, b) && LEQ(b, c) ensures LEQ(a, c) {
      BeforeTransitive(a, b, c);
    }
  }

  /* ---------- the selection ---------- */

  /** The last asset with this key among those with a version. */
  function Lookup(assets: seq<Asset>, key: AssetKey): (r: Option<Asset>)
    ensures r.Some? ==> r.value in assets && AssetKey(r.value.owner, r.value.assetID) == key && AssetMetadata(r.value).version != ""
  {
    if assets == [] then None
    else
      var last := assets[|assets| - 1];
      if AssetMetadata(last).version != "" && AssetKey(last.owner, last.assetID) == key then Some(last)
      else Lookup(assets[..|assets| - 1], key)
  }

  predicate Wanted(filter: Edge, dep: Dependency) {
    filter.owner == "" || (dep.consumer == filter.owner && dep.provider == filter.provider)
  }

  /** The asset as a migration, if it is one for the database. */
  function ItemFromAsset(asset: Asset, provider: string, database: string): Option<Migration> {
    if IsMigration(asset) && (database == "" || AssetMetadata(asset).database == database)
    then Some(MigrationOf(asset, provider)) else None
  }

  /** The migration a dependency refers to by an asset id, if there is one for the database. */
  function Referred(assets: seq<Asset>, dep: Dependency, assetID: string, database: string): seq<Migration> {
    var found := Lookup(assets, AssetKey(dep.consumer, assetID));
    var item := if found.Some? then ItemFromAsset(found.value, dep.provider, database) else None;
    if item.Some? then [item.value] else []
  }

  function ReferredAll(assets: seq<Asset>, dep: Dependency, assetIDs: seq<string>, database: string): seq<Migration> {
    if assetIDs == [] then []
    else ReferredAll(assets, dep, assetIDs[..|assetIDs| - 1], database) + Referred(assets, dep, assetIDs[|assetIDs| - 1], database)
  }

  /** Every migration that the edge filter and the database let through, in graph order. */
  function Candidates(assets: seq<Asset>, dependencies: seq<Dependency>, filter: Edge, database: string): seq<Migration> {
    if dependencies == [] then []
    else
      var dep := dependencies[|dependencies| - 1];
      var earlier := Candidates(assets, dependencies[..|dependencies| - 1], filter, database);
      if Wanted(filter, dep) then earlier + ReferredAll(assets, dep, dep.assetIDs, database) else earlier
  }

  function UpTo(through: string): Migration -> bool {
    (x: Migration) => !VersionAfter(x.version, x.applyOrder, through)
  }

  function Select(graph: Graph, filter: Edge, database: string, through: string): seq<Migration> {
    Sort(LEQ, Filter(Candidates(graph.assets, graph.dependencies, filter, database), UpTo(through)))
  }

  method IndexAssets(list: seq<Asset>) returns (assets: map<AssetKey, Asset>)
    ensures forall k :: k in assets <==> Lookup(list, k).Some?
    ensures forall k | k in assets :: Lookup(list, k) == Some(assets[k])
  {
    assets := map[];
    for i := 0 to |list|
      invariant forall k :: k in assets <==> Lookup(list[..i], k).Some?
      invariant forall k | k in assets :: Lookup(list[..i], k) == Some(assets[k])
    {
      assert list[..i + 1][..i] == list[..i];
      if AssetMetadata(list[i]).version != "" {
        assets := assets[AssetKey(list[i].owner, list[i].assetID) := list[i]];
      }
    }
    assert list[..|list|] == list;
  }

  /** The lookup of one reference in the map, as a migration for the database. */
  function Finder(assets: map<AssetKey, Asset>, dep: Dependency, database: string): string -> Option<Migration> {
    (assetID: string) =>
      var key := AssetKey(dep.consumer, assetID);
      if key in assets then ItemFromAsset(assets[key], dep.provider, database) else None
  }

  /** What a lookup finds for each of the ids, in order. */
  function FoundAll(find: string -> Option<Migration>, assetIDs: seq<string>): seq<Migration> {
    if assetIDs == [] then []
    else
      var last := find(assetIDs[|assetIDs| - 1]);
      FoundAll(find, assetIDs[..|assetIDs| - 1]) + if last.Some? then [last.value] else []
  }

  lemma {:induction false} FoundInTheMap(list: seq<Asset>, assets: map<AssetKey, Asset>, dep: Dependency, assetIDs: seq<string>, database: string)
    requires forall k :: k in assets <==> Lookup(list, k).Some?
    requires forall k | k in assets :: Lookup(list, k) == Some(assets[k])
    ensures FoundAll(Finder(assets, dep, database), assetIDs) == ReferredAll(list, dep, assetIDs, database)
  {
    if assetIDs != [] {
      FoundInTheMap(list, assets, dep, assetIDs[..|assetIDs| - 1], database);
    }
  }

  lemma FilterOne<T>(x: T, keep: T -> bool)
    ensures Filter([x], keep) == if keep(x) then [x] else []
  {
    FilterCons(x, [], keep);
    assert [x] + [] == [x];
  }

  lemma FoundStep(find: string -> Option<Migration>, assetIDs: seq<string>, i: nat, keep: Migration -> bool)
    requires i < |assetIDs|
    ensures var item := find(assetIDs[i]);
      Filter(FoundAll(find, assetIDs[..i + 1]), keep) ==
      Filter(FoundAll(find, assetIDs[..i]), keep) + if item.Some? && keep(item.value) then [item.value] else []
  {
    assert assetIDs[..i + 1][..i] == assetIDs[..i];
    var item := find(assetIDs[i]);
    FilterAppend(FoundAll(find, assetIDs[..i]), if item.Some? then [item.value] else [], keep);
    if item.Some? {
      FilterOne(item.value, keep);
    }
  }

  /** Appends the selected migrations of one dependency. */
  method AppendReferred(find: string -> Option<Migration>, assetIDs: seq<string>, keep: Migration -> bool, out: seq<Migration>)
    returns (r: seq<Migration>)
    ensures r == out + Filter(FoundAll(find, assetIDs), keep)
  {
    r := out;
    ghost var added := [];
    for i := 0 to |assetIDs|
      invariant r == out + added && added == Filter(FoundAll(find, assetIDs[..i]), keep)
    {
      FoundStep(find, assetIDs, i, keep);
      var item := find(assetIDs[i]);
      if item.Some? && keep(item.value) {
        Associative(out, added, [item.value]);
        r := r + [item.value];
        added := added + [item.value];
      }
    }
    assert assetIDs[..|assetIDs|] == assetIDs;
  }

  /** environmentMigrationItems: collects into a map and a growing slice, then sorts. */
  method EnvironmentMigrationItems(graph: Graph, filter: Edge, database: string, through: string) returns (out: seq<Migration>)
    ensures out == Select(graph, filter, database, through)
  {
    out := CollectItems(graph, filter, database, UpTo(through));
    out := Sort(LEQ, out);
  }

  lemma CandidatesStep(graph: Graph, d: nat, filter: Edge, database: string, keep: Migration -> bool)
    requires d < |graph.dependencies|
    ensures var dep := graph.dependencies[d];
      Filter(Candidates(graph.assets, graph.dependencies[..d + 1], filter, database), keep) ==
      Filter(Candidates(graph.assets, graph.dependencies[..d], filter, database), keep) +
      if Wanted(filter, dep) then Filter(ReferredAll(graph.assets, dep, dep.assetIDs, database), keep) else []
  {
    var dep := graph.dependencies[d];
    assert graph.dependencies[..d + 1][..d] == graph.dependencies[..d];
    FilterAppend(Candidates(graph.assets, graph.dependencies[..d], filter, database),
                 ReferredAll(graph.assets, dep, dep.assetIDs, database), keep);
  }

  /** The loops over dependencies and their references. */
  method CollectItems(graph: Graph, filter: Edge, database: string, keep: Migration -> bool) returns (out: seq<Migration>)
    ensures out == Filter(Candidates(graph.assets, graph.dependencies, filter, database), keep)
  {
    var assets := IndexAssets(graph.assets);
    out := [];
    for d := 0 to |graph.dependencies|
      invariant out == Filter(Candidates(graph.assets, graph.dependencies[..d], filter, database), keep)
    {
      var dep := graph.dependencies[d];
      CandidatesStep(graph, d, filter, database, keep);
      if Wanted(filter, dep) {
        FoundInTheMap(graph.assets, assets, dep, dep.assetIDs, database);
        out := AppendReferred(Finder(assets, dep, database), dep.assetIDs, keep, out);
      }
    }
    assert graph.dependencies[..|graph.dependencies|] == graph.dependencies;
  }

  /** A selection is ordered by provider, then by owner, then by apply order, then by version. */
  lemma SelectionIsOrdered(graph: Graph, filter: Edge, database: string, through: string, i: nat, j: nat)
    requires i < j < |Select(graph, filter, database, through)|
    ensures var a, b := Select(graph, filter, database, through)[i], Select(graph, filter, database, through)[j];
      || Less(a.provider, b.provider)
      || (a.provider == b.provider && Less(a.owner, b.owner))
      || (a.provider == b.provider && a.owner == b.owner && a.applyOrder < b.applyOrder)
      || (a.provider == b.provider && a.owner == b.owner && a.applyOrder == b.applyOrder && (Less(a.version, b.version) || a.version == b.version))
  {
    var selected := Select(graph, filter, database, through);
    ThroughVersionFilters(graph, filter, database, through);
    assert LEQ(selected[i], selected[j]);
    LessTotal(selected[i].provider, selected[j].provider);
    LessTotal(selected[i].owner, selected[j].owner);
    LessTotal(selected[i].version, selected[j].version);
  }

  /** The asset that a key stands for: the last one with it that has a version. */
  ghost predicate Indexed(assets: seq<Asset>, key: AssetKey, asset: Asset) {
    exists k | 0 <= k < |assets| :: assets[k] == asset && Versioned(assets[k], key) && forall j | k < j < |assets| :: !Versioned(assets[j], key)
  }

  predicate Versioned(asset: Asset, key: AssetKey) {
    asset.owner == key.owner && asset.assetID == key.assetID && asset.summary.version != ""
  }

  lemma {:induction false} LookupExactly(assets: seq<Asset>, key: AssetKey)
    ensures Lookup(assets, key).Some? ==> Indexed(assets, key, Lookup(assets, key).value)
    ensures Lookup(assets, key).None? ==> forall k | 0 <= k < |assets| :: !Versioned(assets[k], key)
  {
    if assets != [] {
      var n := |assets| - 1;
      LookupExactly(assets[..n], key);
      if Versioned(assets[n], key) {
        assert Indexed(assets, key, assets[n]);
      } else if Lookup(assets[..n], key).Some? {
        var asset := Lookup(assets[..n], key).value;
        var k :| 0 <= k < n && assets[..n][k] == asset && Versioned(assets[..n][k], key) && forall j | k < j < n :: !Versioned(assets[..n][j], key);
        forall j | k < j < |assets| ensures !Versioned(assets[j], key) {
          assert j < n ==> assets[j] == assets[..n][j];
        }
        assert assets[k] == asset;
      } else {
        forall k | 0 <= k < |assets| ensures !Versioned(assets[k], key) {
          assert k < n ==> assets[k] == assets[..n][k];
        }
      }
    }
  }

  lemma OneIndexed(assets: seq<Asset>, key: AssetKey, a: Asset, b: Asset)
    requires Indexed(assets, key, a) && Indexed(assets, key, b)
    ensures a == b
  {
    var i :| 0 <= i < |assets| && assets[i] == a && Versioned(assets[i], key) && forall j | i < j < |assets| :: !Versioned(assets[j], key);
    var k :| 0 <= k < |assets| && assets[k] == b && Versioned(assets[k], key) && forall j | k < j < |assets| :: !Versioned(assets[j], key);
    assert !(i < k) && !(k < i);
  }

  /** The migration is that of an asset a dependency on the edge refers to, for the database. */
  ghost predicate Referenced(graph: Graph, dep: Dependency, filter: Edge, database: string, x: Migration) {
    && (filter.owner == "" || (dep.consumer == filter.owner && dep.provider == filter.provider))
    && exists id, asset: Asset | id in dep.assetIDs && Indexed(graph.assets, AssetKey(dep.consumer, id), asset) ::
         asset.summary.database != "" && (database == "" || asset.summary.database == database) && x == MigrationOf(asset, dep.provider)
  }

  lemma ReferredExactly(assets: seq<Asset>, dep: Dependency, assetID: string, database: string, x: Migration)
    ensures x in Referred(assets, dep, assetID, database) <==>
      exists asset: Asset | Indexed(assets, AssetKey(dep.consumer, assetID), asset) ::
        asset.summary.database != "" && (database == "" || asset.summary.database == database) && x == MigrationOf(asset, dep.provider)
  {
    var key := AssetKey(dep.consumer, assetID);
    LookupExactly(assets, key);
    forall asset: Asset | Indexed(assets, key, asset) ensures Lookup(assets, key) == Some(asset) {
      if Lookup(assets, key).Some? {
        OneIndexed(assets, key, asset, Lookup(assets, key).value);
      }
    }
  }

  /** Whether an id refers to the migration. */
  function Refers(assets: seq<Asset>, dep: Dependency, database: string, x: Migration): string -> bool {
    (assetID: string) => x in Referred(assets, dep, assetID, database)
  }

  lemma {:induction false} ReferredAllExactly(assets: seq<Asset>, dep: Dependency, assetIDs: seq<string>, database: string, x: Migration)
    ensures x in ReferredAll(assets, dep, assetIDs, database) <==> exists id | id in assetIDs :: Refers(assets, dep, database, x)(id)
  {
    if assetIDs != [] {
      var n := |assetIDs| - 1;
      var refers := Refers(assets, dep, database, x);
      ReferredAllExactly(assets, dep, assetIDs[..n], database, x);
      assert x in ReferredAll(assets, dep, assetIDs, database) <==> x in ReferredAll(assets, dep, assetIDs[..n], database) || refers(assetIDs[n]);
      OneMoreID(assetIDs, refers);
    }
  }

  lemma OneMoreID(assetIDs: seq<string>, refers: string -> bool)
    requires assetIDs != []
    ensures var n := |assetIDs| - 1;
      (exists id | id in assetIDs :: refers(id)) <==> (exists id | id in assetIDs[..n] :: refers(id)) || refers(assetIDs[n])
  {
    var n := |assetIDs| - 1;
    assert assetIDs == assetIDs[..n] + [assetIDs[n]];
  }

  lemma DependencyExactly(graph: Graph, dep: Dependency, filter: Edge, database: string, x: Migration)
    ensures Wanted(filter, dep) && x in ReferredAll(graph.assets, dep, dep.assetIDs, database) <==>
            Referenced(graph, dep, filter, database, x)
  {
    ReferredAllExactly(graph.assets, dep, dep.assetIDs, database, x);
    forall id | id in dep.assetIDs ensures Refers(graph.assets, dep, database, x)(id) <==>
      exists asset: Asset | Indexed(graph.assets, AssetKey(dep.consumer, id), asset) ::
        asset.summary.database != "" && (database == "" || asset.summary.database == database) && x == MigrationOf(asset, dep.provider)
    {
      ReferredExactly(graph.assets, dep, id, database, x);
    }
  }

  lemma {:induction false} CandidatesExactly(graph: Graph, dependencies: seq<Dependency>, filter: Edge, database: string, x: Migration)
    ensures x in Candidates(graph.assets, dependencies, filter, database) <==>
      exists dep | dep in dependencies :: Wanted(filter, dep) && x in ReferredAll(graph.assets, dep, dep.assetIDs, database)
  {
    if dependencies != [] {
      var n := |dependencies| - 1;
      CandidatesExactly(graph, dependencies[..n], filter, database, x);
      assert dependencies == dependencies[..n] + [dependencies[n]];
    }
  }

  lemma SortedMembers(candidates: seq<Migration>, keep: Migration -> bool, x: Migration)
    ensures x in Sort(LEQ, Filter(candidates, keep)) <==> x in candidates && keep(x)
  {
    var kept := Filter(candidates, keep);
    FilterMembers(candidates, keep, x);
    assert x in kept <==> x in multiset(kept);
    assert x in Sort(LEQ, kept) <==> x in multiset(Sort(LEQ, kept));
  }

  /**
   What is selected: exactly the migrations of assets that some dependency, on the edge if one is given, refers to, for
   the database if one is given, and not after the version.
   */
  lemma SelectedExactly(graph: Graph, filter: Edge, database: string, through: string, x: Migration)
    ensures x in Select(graph, filter, database, through) <==>
      (exists dep | dep in graph.dependencies :: Referenced(graph, dep, filter, database, x)) && UpTo(through)(x)
  {
    SortedMembers(Candidates(graph.assets, graph.dependencies, filter, database), UpTo(through), x);
    CandidatesExactly(graph, graph.dependencies, filter, database, x);
    forall dep | dep in graph.dependencies
      ensures Wanted(filter, dep) && x in ReferredAll(graph.assets, dep, dep.assetIDs, database) <==> Referenced(graph, dep, filter, database, x)
    {
      DependencyExactly(graph, dep, filter, database, x);
    }
  }

  lemma {:induction false} FilterMembers<T>(s: seq<T>, keep: T -> bool, x: T)
    ensures x in Filter(s, keep) <==> x in s && keep(x)
  {
    if s != [] {
      FilterMembers(s[1..], keep, x);
    }
  }

  /** Selecting up to a version is filtering the full, ordered selection. */
  lemma ThroughVersionFilters(graph: Graph, filter: Edge, database: string, through: string)
    ensures Select(graph, filter, database, through) == Filter(Select(graph, filter, database, ""), UpTo(through))
    ensures Sorted(LEQ, Select(graph, filter, database, through))
  {
    OrderIsTotal();
    var candidates := Candidates(graph.assets, graph.dependencies, filter, database);
    assert TrimSpace("") == "";
    KeepAll(candidates, UpTo(""));
    FilterSort(LEQ, candidates, UpTo(through));
    SortSorted(LEQ, Filter(candidates, UpTo(through)));
  }

  lemma {:induction false} KeepAll<T>(s: seq<T>, keep: T -> bool)
    requires forall x | x in s :: keep(x)
    ensures Filter(s, keep) == s
  {
    if s != [] {
      KeepAll(s[1..], keep);
    }
  }

  lemma {:induction false} ReferredBelong(assets: seq<Asset>, dep: Dependency, assetIDs: seq<string>, database: string)
    ensures forall x | x in ReferredAll(assets, dep, assetIDs, database) :: x.provider == dep.provider && x.owner == dep.consumer
  {
    if assetIDs != [] {
      ReferredBelong(assets, dep, assetIDs[..|assetIDs| - 1], database);
    }
  }

  lemma {:induction false} CandidatesBelong(assets: seq<Asset>, dependencies: seq<Dependency>, filter: Edge, database: string)
    requires filter.owner != ""
    ensures forall x | x in Candidates(assets, dependencies, filter, database) :: x.provider == filter.provider && x.owner == filter.owner
  {
    if dependencies != [] {
      var dep := dependencies[|dependencies| - 1];
      CandidatesBelong(assets, dependencies[..|dependencies| - 1], filter, database);
      ReferredBelong(assets, dep, dep.assetIDs, database);
    }
  }
}
