/**
 * The files a lifecycle command projects from the Store into the workspace, and the later command that checks,
 * without writing, that the workspace still holds exactly that projection.
 */
module Lifecycle {
  import opened Text
  import opened Paths
  import opened FileTree
  import opened Projecting
  import opened Workspace
  import S = StableSort

  const DEFAULT_MODE: nat := 0x1A4 // 0644
  const PRIVATE_MODE: nat := 0x180 // 0600

  /**
   * The generated files of an environment, contents and modes by cleaned path, and the environment file: its path,
   * which the program fixes to .agent-testbench/restore.env, and its text.
   */
  datatype Projection = Projection(contents: map<string, string>, modes: map<string, nat>, envPath: string, env: string)

  datatype FileReport = FileReport(path: string, size: nat, write: bool, ok: bool)

  /** The listed paths that are generated files, each once, in the listed order. */
  function FromOrder(clean: string -> string, keys: seq<string>, order: seq<string>): (r: seq<string>)
    decreases |order|
  {
    if order == [] then []
    else
      var before, path := FromOrder(clean, keys, order[..|order| - 1]), clean(order[|order| - 1]);
      if path == "." || path in before || path !in keys then before else before + [path]
  }

  /** The cleaned keys that were not listed. */
  function FromKeys(clean: string -> string, keys: seq<string>, listed: seq<string>): (r: seq<string>)
    decreases |keys|
  {
    if keys == [] then []
    else
      var before, path := FromKeys(clean, keys[..|keys| - 1], listed), clean(keys[|keys| - 1]);
      if path == "." || path in listed then before else before + [path]
  }

  function NotAfter(): (string, string) -> bool {
    (a, b) => !Less(b, a)
  }

  function GeneratedPaths(clean: string -> string, keys: seq<string>, order: seq<string>): seq<string> {
    var listed := FromOrder(clean, keys, order);
    listed + S.Sort(NotAfter(), FromKeys(clean, keys, listed))
  }

  /** environmentRestoreGeneratedFilePaths, given the keys in the order the map yields them. */
  method GeneratedFilePaths(clean: string -> string, keys: seq<string>, order: seq<string>) returns (paths: seq<string>)
    ensures paths == GeneratedPaths(clean, keys, order)
  {
    paths := [];
    for i := 0 to |order|
      invariant paths == FromOrder(clean, keys, order[..i])
    {
      assert order[..i + 1][..i] == order[..i];
      var path := clean(order[i]);
      if !(path == "." || path in paths) && path in keys {
        paths := paths + [path];
      }
    }
    assert order[..|order|] == order;
    var remaining := [];
    for i := 0 to |keys|
      invariant remaining == FromKeys(clean, keys[..i], paths)
    {
      assert keys[..i + 1][..i] == keys[..i];
      var path := clean(keys[i]);
      if !(path == "." || path in paths) {
        remaining := remaining + [path];
      }
    }
    assert keys[..|keys|] == keys;
    paths := paths + S.Sort(NotAfter(), remaining);
  }

  predicate Listed(clean: string -> string, keys: seq<string>, order: seq<string>, path: string) {
    path != "." && path in keys && exists o | o in order :: clean(o) == path
  }

  predicate Keyed(clean: string -> string, keys: seq<string>, path: string) {
    path != "." && exists k | k in keys :: clean(k) == path
  }

  lemma {:induction false} FromOrderMembers(clean: string -> string, keys: seq<string>, order: seq<string>, path: string)
    ensures path in FromOrder(clean, keys, order) <==> Listed(clean, keys, order, path)
    decreases |order|
  {
    if order != [] {
      var init := order[..|order| - 1];
      FromOrderMembers(clean, keys, init, path);
      assert order == init + [order[|order| - 1]];
    }
  }

  lemma {:induction false} FromKeysMembers(clean: string -> string, keys: seq<string>, listed: seq<string>, path: string)
    ensures path in FromKeys(clean, keys, listed) <==> (Keyed(clean, keys, path) && path !in listed)
    decreases |keys|
  {
    if keys != [] {
      var init := keys[..|keys| - 1];
      FromKeysMembers(clean, init, listed, path);
      assert keys == init + [keys[|keys| - 1]];
    }
  }

  /** The paths that are written and checked: the listed ones, and every key cleaned once more. */
  lemma GeneratedPathsMembers(clean: string -> string, keys: seq<string>, order: seq<string>, path: string)
    ensures path in GeneratedPaths(clean, keys, order) <==> (Listed(clean, keys, order, path) || Keyed(clean, keys, path))
  {
    var listed := FromOrder(clean, keys, order);
    FromOrderMembers(clean, keys, order, path);
    FromKeysMembers(clean, keys, listed, path);
    SameMembers(FromKeys(clean, keys, listed), S.Sort(NotAfter(), FromKeys(clean, keys, listed)), path);
  }

  lemma {:induction false} FromOrderKeepsOrder(clean: string -> string, keys: seq<string>, order: seq<string>, i: nat, j: nat)
    requires i < j < |FromOrder(clean, keys, order)|
    ensures var listed := FromOrder(clean, keys, order);
      && listed[i] != listed[j]
      && exists a, b | 0 <= a < b < |order| :: clean(order[a]) == listed[i] && clean(order[b]) == listed[j]
    decreases |order|
  {
    var n := |order| - 1;
    var before := FromOrder(clean, keys, order[..n]);
    if j < |before| {
      FromOrderKeepsOrder(clean, keys, order[..n], i, j);
      var a, b :| 0 <= a < b < n && clean(order[..n][a]) == before[i] && clean(order[..n][b]) == before[j];
      assert clean(order[a]) == before[i] && clean(order[b]) == before[j];
    } else {
      FromOrderMembers(clean, keys, order[..n], before[i]);
      assert before[i] in before;
      var o :| o in order[..n] && clean(o) == before[i];
      var a :| 0 <= a < n && order[..n][a] == o;
      assert clean(order[a]) == before[i] && clean(order[n]) == FromOrder(clean, keys, order)[j];
    }
  }

  /** First the listed paths, each once and in the listed order. */
  lemma ListedPathsKeepOrder(clean: string -> string, keys: seq<string>, order: seq<string>, i: nat, j: nat)
    requires i < j < |FromOrder(clean, keys, order)|
    ensures var paths := GeneratedPaths(clean, keys, order);
      && paths[i] != paths[j] && exists a, b | 0 <= a < b < |order| :: clean(order[a]) == paths[i] && clean(order[b]) == paths[j]
  {
    FromOrderKeepsOrder(clean, keys, order, i, j);
  }

  lemma ListedPathsAreFirst(clean: string -> string, keys: seq<string>, order: seq<string>, i: nat)
    requires i < |GeneratedPaths(clean, keys, order)|
    ensures Listed(clean, keys, order, GeneratedPaths(clean, keys, order)[i]) <==> i < |FromOrder(clean, keys, order)|
  {
    var listed, paths := FromOrder(clean, keys, order), GeneratedPaths(clean, keys, order);
    var others := FromKeys(clean, keys, listed);
    FromOrderMembers(clean, keys, order, paths[i]);
    if i < |listed| {
      assert paths[i] in listed;
    } else {
      var sorted := S.Sort(NotAfter(), others);
      assert paths[i] == sorted[i - |listed|];
      SameMembers(others, sorted, paths[i]);
      FromKeysMembers(clean, keys, listed, paths[i]);
    }
  }

  /** Then the others, sorted. */
  lemma OtherPathsAreSorted(clean: string -> string, keys: seq<string>, order: seq<string>, i: nat, j: nat)
    requires |FromOrder(clean, keys, order)| <= i < j < |GeneratedPaths(clean, keys, order)|
    ensures var paths := GeneratedPaths(clean, keys, order); Less(paths[i], paths[j]) || paths[i] == paths[j]
  {
    var listed, paths := FromOrder(clean, keys, order), GeneratedPaths(clean, keys, order);
    var sorted := S.Sort(NotAfter(), FromKeys(clean, keys, listed));
    NotAfterIsTotal();
    S.SortSorted(NotAfter(), FromKeys(clean, keys, listed));
    assert NotAfter()(sorted[i - |listed|], sorted[j - |listed|]);
    LessTotal(paths[i], paths[j]);
  }

  lemma NotAfterIsTotal()
    ensures S.TotalPreorder(NotAfter())
  {
    forall a: string, b: string ensures NotAfter()(a, b) || NotAfter()(b, a) {
      LessTotal(a, b);
    }
    forall a: string, b: string, c: string | NotAfter()(a, b) && NotAfter()(b, c) ensures NotAfter()(a, c) {
      LessTotal(a, b);
      LessTotal(b, c);
      LessTotal(a, c);
      if Less(c, a) && a != b && b != c {
        LessTransitive(a, b, c);
      }
    }
  }

  /** They are clean, so that looking a mode up by the path and by the cleaned path is the same. */
  lemma GeneratedPathsAreClean(keys: seq<string>, order: seq<string>, path: string)
    requires path in GeneratedPaths(Cleaned, keys, order)
    ensures Clean(path) == path
  {
    GeneratedPathsMembers(Cleaned, keys, order, path);
    if Listed(Cleaned, keys, order, path) {
      var o :| o in order && Cleaned(o) == path;
      CleanIsIdempotent(TrimSpace(o));
    } else {
      var k :| k in keys && Cleaned(k) == path;
      CleanIsIdempotent(TrimSpace(k));
    }
  }

  lemma SameMembers(a: seq<string>, b: seq<string>, x: string)
    requires multiset(a) == multiset(b)
    ensures x in a <==> x in b
  {
    assert x in a <==> x in multiset(a);
    assert x in b <==> x in multiset(b);
  }

  function ContentOf(p: Projection, path: string): string {
    if path in p.contents then p.contents[path] else ""
  }

  function ModeOf(p: Projection, path: string): nat {
    if path in p.modes && p.modes[path] != 0 then p.modes[path] else DEFAULT_MODE
  }

  function WriteOf(rules: Rules, p: Projection, path: string): Write {
    Write(rules.target(path), File(Perm(ModeOf(p, path)), ContentOf(p, path)))
  }

  function WritesOf(rules: Rules, p: Projection, paths: seq<string>): (writes: seq<Write>)
    ensures |writes| == |paths| && forall i | 0 <= i < |paths| :: writes[i] == WriteOf(rules, p, paths[i])
  {
    seq(|paths|, i requires 0 <= i < |paths| => WriteOf(rules, p, paths[i]))
  }

  function EnvWrite(rules: Rules, p: Projection): Write {
    Write(rules.target(p.envPath), File(PRIVATE_MODE, p.env))
  }

  /**
   * Everything preparation writes into the workspace itself: a blank environment text is not written, and the
   * environment file only goes there if its cleaned name opens the same directory.
   */
  function AllWrites(rules: Rules, p: Projection, paths: seq<string>, home: bool): seq<Write> {
    WritesOf(rules, p, paths) + if p.env == "" || !home then [] else [EnvWrite(rules, p)]
  }

  predicate AllInside(rules: Rules, paths: seq<string>) {
    forall i | 0 <= i < |paths| :: rules.inside(paths[i])
  }

  predicate AllOK(reports: seq<FileReport>) {
    forall i | 0 <= i < |reports| :: reports[i].ok
  }

  lemma OneMoreReport(reports: seq<FileReport>, report: FileReport)
    ensures AllOK(reports + [report]) <==> AllOK(reports) && report.ok
  {
    var all := reports + [report];
    assert all[|reports|] == report;
    assert forall i | 0 <= i < |reports| :: all[i] == reports[i];
  }

  /** A report tells the size of the content, and is good only for a path that stays inside. */
  predicate Fits(rules: Rules, p: Projection, path: string, report: FileReport) {
    report.path == path && report.size == |ContentOf(p, path)| && (report.ok ==> rules.inside(path))
  }

  predicate AllFit(rules: Rules, p: Projection, paths: seq<string>, reports: seq<FileReport>) {
    |reports| == |paths| && forall i | 0 <= i < |paths| :: Fits(rules, p, paths[i], reports[i])
  }

  /** All these were written, in this order. */
  ghost predicate WroteAll(before: Tree, after: Tree, blank: bool, writes: seq<Write>) {
    (writes != [] ==> !blank) && AllWritable(before, writes) && after == WriteAll(before, writes)
  }

  lemma OneMoreWrite(before: Tree, middle: Tree, after: Tree, blank: bool, writes: seq<Write>, write: Write)
    requires WroteAll(before, middle, blank, writes) && !blank
    requires Writable(middle, write.target) && write.node.File? && after == Replaced(middle, write.target, write.node)
    ensures WroteAll(before, after, blank, writes + [write])
  {
    assert (writes + [write])[..|writes|] == writes;
  }

  /** One generated file: checked, then written if told to execute. */
  method PrepareOne(root: Root, rules: Rules, p: Projection, path: string, execute: bool) returns (report: FileReport)
    requires root.Valid() && root.directory == rules.directory
    modifies root
    ensures root.Valid() && Fits(rules, p, path, report)
    ensures !execute ==> root.tree == old(root.tree) && root.trace == old(root.trace)
    ensures execute && report.ok ==> CanReplace(old(root.tree), rules, path)
    ensures execute && report.ok ==> root.tree == Replaced(old(root.tree), rules.target(path), WriteOf(rules, p, path).node)
  {
    var ok, wrote := rules.inside(path), false;
    if ok && execute {
      var error := root.WriteFile(rules, path, ContentOf(p, path), ModeOf(p, path));
      ok, wrote := error.OK(), true;
    }
    return FileReport(path, |ContentOf(p, path)|, wrote, ok);
  }

  /**
   * prepareEnvironmentRestoreGeneratedFiles: one report for each path. It goes on after a file that fails, and
   * only plans unless told to execute.
   */
  method PrepareGeneratedFiles(root: Root, rules: Rules, p: Projection, paths: seq<string>, execute: bool)
    returns (reports: seq<FileReport>)
    requires root.Valid() && root.directory == rules.directory
    modifies root
    ensures root.Valid() && AllFit(rules, p, paths, reports)
    ensures !execute ==> root.tree == old(root.tree) && root.trace == old(root.trace)
    ensures execute && AllOK(reports) ==> WroteAll(old(root.tree), root.tree, rules.Blank(), WritesOf(rules, p, paths))
  {
    reports := [];
    ghost var writes := [];
    for i := 0 to |paths|
      invariant root.Valid() && AllFit(rules, p, paths[..i], reports)
      invariant !execute ==> root.tree == old(root.tree) && root.trace == old(root.trace)
      invariant writes == WritesOf(rules, p, paths[..i])
      invariant execute && AllOK(reports) ==> WroteAll(old(root.tree), root.tree, rules.Blank(), writes)
    {
      ghost var middle := root.tree;
      var report := PrepareOne(root, rules, p, paths[i], execute);
      assert paths[..i + 1] == paths[..i] + [paths[i]];
      if execute && AllOK(reports) && report.ok {
        OneMoreWrite(old(root.tree), middle, root.tree, rules.Blank(), writes, WriteOf(rules, p, paths[i]));
      }
      OneMoreReport(reports, report);
      reports := reports + [report];
      writes := writes + [WriteOf(rules, p, paths[i])];
    }
    assert paths[..|paths|] == paths;
  }

  /** The two names open the same directory, which is then one and the same. */
  ghost predicate Opens(root: Root, rules: Rules, envRoot: Root, envRules: Rules) {
    && root.directory == rules.directory && envRoot.directory == envRules.directory
    && (rules.directory == envRules.directory <==> root == envRoot)
    && rules.target == envRules.target
  }

  predicate Home(rules: Rules, envRules: Rules) {
    rules.directory == envRules.directory
  }

  /**
   * prepareEnvironmentLifecycleComposeFiles. The environment file is written under the cleaned name of the
   * workspace, which may open another directory than the name itself.
   */
  method PrepareBy(root: Root, rules: Rules, envRoot: Root, envRules: Rules, p: Projection, paths: seq<string>)
    returns (ok: bool)
    requires root.Valid() && envRoot.Valid() && Opens(root, rules, envRoot, envRules)
    modifies root, envRoot
    ensures root.Valid() && envRoot.Valid()
    ensures ok ==> Prepared(old(root.tree), root.tree, rules, envRules, p, paths)
    ensures ok && !Home(rules, envRules) && p.env != "" ==> CanReplace(old(envRoot.tree), envRules, p.envPath)
    ensures ok && !Home(rules, envRules) && p.env != "" ==>
      envRoot.tree == Replaced(old(envRoot.tree), EnvWrite(rules, p).target, EnvWrite(rules, p).node)
  {
    var reports := PrepareGeneratedFiles(root, rules, p, paths, true);
    for i := 0 to |reports|
      invariant forall j | 0 <= j < i :: reports[j].ok
    {
      if !reports[i].ok {
        return false;
      }
    }
    ghost var writes := WritesOf(rules, p, paths);
    assert writes + [] == writes;
    if p.env == "" {
      return true;
    }
    ghost var middle := root.tree;
    var error := envRoot.WriteFile(envRules, p.envPath, p.env, PRIVATE_MODE);
    if error.OK() && Home(rules, envRules) {
      OneMoreWrite(old(root.tree), middle, root.tree, rules.Blank(), writes, EnvWrite(rules, p));
    }
    return error.OK();
  }

  /** What a successful preparation did: everything written, in order, each path let through. */
  ghost predicate Prepared(before: Tree, after: Tree, rules: Rules, envRules: Rules, p: Projection, paths: seq<string>) {
    && AllInside(rules, paths)
    && WroteAll(before, after, rules.Blank(), AllWrites(rules, p, paths, Home(rules, envRules)))
    && (p.env != "" ==> rules.target(p.envPath) != [])
  }

  /** The check of one file, as a function of the tree. */
  predicate MatchesNode(tree: Tree, rules: Rules, path: string, node: Node) {
    node.File? && ReadOf(tree, rules, path) == Bytes(node.mode, node.content)
  }

  predicate MatchesWrites(tree: Tree, rules: Rules, p: Projection, paths: seq<string>) {
    forall i | 0 <= i < |paths| :: rules.inside(paths[i]) && MatchesNode(tree, rules, paths[i], WriteOf(rules, p, paths[i]).node)
  }

  predicate AllRegular(tree: Tree, rules: Rules, paths: seq<string>) {
    forall i | 0 <= i < |paths| :: ReadOf(tree, rules, paths[i]).Bytes?
  }

  /** What the validator accepts. */
  predicate Accepts(tree: Tree, rules: Rules, p: Projection, paths: seq<string>, referred: seq<string>) {
    && MatchesWrites(tree, rules, p, paths)
    && AllRegular(tree, rules, referred)
    && MatchesNode(tree, rules, p.envPath, File(PRIVATE_MODE, p.env))
  }

  /** readEnvironmentLifecycleProjectionFile: a regular file, of the expected mode unless that is zero. */
  method ReadProjectionFile(root: Root, rules: Rules, path: string, mode: nat) returns (ok: bool, content: string)
    requires root.Valid() && root.directory == rules.directory
    modifies root
    ensures root.Valid() && root.tree == old(root.tree)
    ensures ok ==> var r := ReadOf(root.tree, rules, path); r.Bytes? && r.content == content && (mode == 0 || r.mode == mode)
    ensures root.Reliable() ==> ok == (var r := ReadOf(root.tree, rules, path); r.Bytes? && (mode == 0 || r.mode == mode))
  {
    var reading := root.ReadFile(rules, path);
    match reading
    case Bytes(actual, bytes) =>
      return mode == 0 || actual == mode, bytes;
    case _ =>
      return false, "";
  }

  /** validateEnvironmentLifecycleComposeFiles. */
  method Validate(root: Root, rules: Rules, p: Projection, paths: seq<string>, referred: seq<string>)
    returns (ok: bool)
    requires root.Valid() && root.directory == rules.directory
    requires forall path | path in p.modes :: p.modes[path] < 0x200
    modifies root
    ensures root.Valid() && root.tree == old(root.tree)
    ensures ok ==> Accepts(root.tree, rules, p, paths, referred)
    ensures root.Reliable() && Accepts(root.tree, rules, p, paths, referred) ==> ok
  {
    for i := 0 to |paths|
      invariant root.Valid() && root.tree == old(root.tree)
      invariant MatchesWrites(root.tree, rules, p, paths[..i])
    {
      assert forall j | 0 <= j < i :: paths[..i][j] == paths[..i + 1][j];
      if !rules.inside(paths[i]) {
        return false;
      }
      var read, content := ReadProjectionFile(root, rules, paths[i], ModeOf(p, paths[i]));
      if !read || content != ContentOf(p, paths[i]) {
        return false;
      }
    }
    assert paths[..|paths|] == paths;
    for i := 0 to |referred|
      invariant root.Valid() && root.tree == old(root.tree)
      invariant AllRegular(root.tree, rules, referred[..i])
    {
      assert forall j | 0 <= j < i :: referred[..i][j] == referred[..i + 1][j];
      var read, _ := ReadProjectionFile(root, rules, referred[i], 0);
      if !read {
        return false;
      }
    }
    assert referred[..|referred|] == referred;
    var read, content := ReadProjectionFile(root, rules, p.envPath, PRIVATE_MODE);
    return read && content == p.env;
  }

  /** A referred file is there in the end: it is one of the written files, or it was a regular file before. */
  predicate Supplied(before: Tree, writes: seq<Write>, target: Path) {
    target != [] && (Written(writes, target) || (target in before && before[target].File?))
  }

  /** What the projection and the old tree must satisfy for the validator to accept what was prepared. */
  ghost predicate Sound(before: Tree, rules: Rules, home: bool, p: Projection, paths: seq<string>, referred: seq<string>) {
    var writes := AllWrites(rules, p, paths, home);
    && !rules.Blank() && Consistent(writes) && (home || Leaves(before, writes, EnvWrite(rules, p)))
    && forall i | 0 <= i < |referred| :: Supplied(before, writes, rules.target(referred[i]))
  }

  lemma ReadingIsHolding(tree: Tree, rules: Rules, path: string, node: Node)
    requires !rules.Blank() && node.File? && WellFormed(tree)
    ensures MatchesNode(tree, rules, path, node) <==> rules.target(path) != [] && Holds(tree, Write(rules.target(path), node))
    ensures ReadOf(tree, rules, path).Bytes? <==> rules.target(path) != [] && rules.target(path) in tree && tree[rules.target(path)].File?
  {
    var target := rules.target(path);
    if target in tree && target != [] {
      AncestorsAreDirectories(tree, target, 0);
      assert target[..0] == [];
    }
  }

  lemma MatchingIsHolding(tree: Tree, rules: Rules, p: Projection, paths: seq<string>, checked: seq<string>)
    requires !rules.Blank() && WellFormed(tree) && AllInside(rules, paths)
    requires forall x :: x in paths <==> x in checked
    requires forall i | 0 <= i < |paths| :: rules.target(paths[i]) != []
    ensures MatchesWrites(tree, rules, p, checked) <==> forall i | 0 <= i < |paths| :: Holds(tree, WritesOf(rules, p, paths)[i])
  {
    forall x | x in paths
      ensures rules.inside(x) && rules.target(x) != []
      ensures MatchesNode(tree, rules, x, WriteOf(rules, p, x).node) <==> Holds(tree, WriteOf(rules, p, x))
    {
      var i :| 0 <= i < |paths| && paths[i] == x;
      ReadingIsHolding(tree, rules, x, WriteOf(rules, p, x).node);
    }
    if MatchesWrites(tree, rules, p, checked) {
      forall i | 0 <= i < |paths| ensures Holds(tree, WritesOf(rules, p, paths)[i]) {
        assert paths[i] in checked;
      }
    }
    if forall i | 0 <= i < |paths| :: Holds(tree, WritesOf(rules, p, paths)[i]) {
      forall j | 0 <= j < |checked|
        ensures rules.inside(checked[j]) && MatchesNode(tree, rules, checked[j], WriteOf(rules, p, checked[j]).node)
      {
        assert checked[j] in paths;
        var i :| 0 <= i < |paths| && paths[i] == checked[j];
        assert Holds(tree, WritesOf(rules, p, paths)[i]);
      }
    }
  }

  lemma ReferredAreSupplied(before: Tree, rules: Rules, writes: seq<Write>, referred: seq<string>)
    requires !rules.Blank() && WellFormed(before) && AllWritable(before, writes)
    ensures AllRegular(WriteAll(before, writes), rules, referred) <==>
      forall i | 0 <= i < |referred| :: Supplied(before, writes, rules.target(referred[i]))
  {
    var after := WriteAll(before, writes);
    WriteAllIsWellFormed(before, writes);
    forall i | 0 <= i < |referred|
      ensures ReadOf(after, rules, referred[i]).Bytes? <==> Supplied(before, writes, rules.target(referred[i]))
    {
      WrittenOrUntouched(before, writes, rules.target(referred[i]));
      ReadingIsHolding(after, rules, referred[i], File(0, ""));
    }
  }

  lemma TargetsAreThere(before: Tree, rules: Rules, p: Projection, paths: seq<string>, home: bool)
    requires AllWritable(before, AllWrites(rules, p, paths, home))
    ensures forall i | 0 <= i < |paths| :: rules.target(paths[i]) != []
  {
    var writes := AllWrites(rules, p, paths, home);
    forall i | 0 <= i < |paths| ensures rules.target(paths[i]) != [] {
      assert writes[i] == WritesOf(rules, p, paths)[i];
      WritesFiles(before, writes, i);
    }
  }

  /**
   * What a projection must satisfy to be accepted after another one was prepared: the last write to each of its files,
   * or the old tree if there was none, has just its content and mode.
   */
  ghost predicate Renews(before: Tree, rules: Rules, home: bool, p: Projection, q: Projection, paths: seq<string>, referred: seq<string>) {
    var writes := AllWrites(rules, p, paths, home);
    && !rules.Blank() && rules.target(q.envPath) != [] && Leaves(before, writes, EnvWrite(rules, q))
    && (forall i | 0 <= i < |paths| :: Leaves(before, writes, WriteOf(rules, q, paths[i])))
    && (forall i | 0 <= i < |referred| :: Supplied(before, writes, rules.target(referred[i])))
  }

  /**
   * Materialise one projection, then validate another one of the same paths: the validator accepts the workspace if
   * and only if the second renews the first. It may look at the generated files in any order.
   */
  lemma ValidatingAnother(before: Tree, after: Tree, rules: Rules, envRules: Rules, p: Projection, q: Projection,
                          paths: seq<string>, checked: seq<string>, referred: seq<string>)
    requires WellFormed(before) && Prepared(before, after, rules, envRules, p, paths)
    requires forall x :: x in paths <==> x in checked
    ensures Accepts(after, rules, q, checked, referred) <==> Renews(before, rules, Home(rules, envRules), p, q, paths, referred)
  {
    var writes := AllWrites(rules, p, paths, Home(rules, envRules));
    if rules.Blank() {
      assert !MatchesNode(after, rules, q.envPath, File(PRIVATE_MODE, q.env));
    } else {
      WriteAllIsWellFormed(before, writes);
      TargetsAreThere(before, rules, p, paths, Home(rules, envRules));
      MatchingIsHolding(after, rules, q, paths, checked);
      ReadingIsHolding(after, rules, q.envPath, File(PRIVATE_MODE, q.env));
      ReferredAreSupplied(before, rules, writes, referred);
      LeavesExactly(before, writes, EnvWrite(rules, q));
      AllAreLeft(before, writes, rules, q, paths);
    }
  }

  lemma AllAreLeft(before: Tree, writes: seq<Write>, rules: Rules, q: Projection, paths: seq<string>)
    requires AllWritable(before, writes)
    ensures (forall i | 0 <= i < |paths| :: Holds(WriteAll(before, writes), WritesOf(rules, q, paths)[i])) <==>
      (forall i | 0 <= i < |paths| :: Leaves(before, writes, WriteOf(rules, q, paths[i])))
  {
    forall i | 0 <= i < |paths|
      ensures Holds(WriteAll(before, writes), WritesOf(rules, q, paths)[i]) <==> Leaves(before, writes, WriteOf(rules, q, paths[i]))
    {
      LeavesExactly(before, writes, WriteOf(rules, q, paths[i]));
    }
  }

  /** The generated files of a projection are left as it writes them exactly if its writes are consistent. */
  lemma OwnWritesAreLeft(before: Tree, rules: Rules, home: bool, p: Projection, paths: seq<string>)
    requires AllWritable(before, AllWrites(rules, p, paths, home))
    ensures var writes := AllWrites(rules, p, paths, home);
      && (Consistent(writes) <==> forall i | 0 <= i < |writes| :: Leaves(before, writes, writes[i]))
      && (forall i | 0 <= i < |paths| :: writes[i] == WriteOf(rules, p, paths[i]))
  {
    var writes := AllWrites(rules, p, paths, home);
    EveryWriteSurvivesExactly(before, writes);
    forall i | 0 <= i < |writes| ensures Holds(WriteAll(before, writes), writes[i]) <==> Leaves(before, writes, writes[i]) {
      WritesFiles(before, writes, i);
      LeavesExactly(before, writes, writes[i]);
    }
  }

  /** A projection renews itself exactly if it is sound. */
  lemma RenewingItself(before: Tree, rules: Rules, home: bool, p: Projection, paths: seq<string>, referred: seq<string>)
    requires AllWritable(before, AllWrites(rules, p, paths, home)) && (!rules.Blank() ==> p.env != "" && rules.target(p.envPath) != [])
    ensures Renews(before, rules, home, p, p, paths, referred) <==> Sound(before, rules, home, p, paths, referred)
  {
    var writes, n := AllWrites(rules, p, paths, home), |paths|;
    OwnWritesAreLeft(before, rules, home, p, paths);
    if !rules.Blank() {
      assert if home then |writes| == n + 1 && writes[n] == EnvWrite(rules, p) else |writes| == n;
    }
  }

  /**
   * Materialise, then validate the same. After a successful preparation the validator accepts the workspace if and
   * only if the workspace has a name, no two writes to one file differ, every referred file is written or was there,
   * and the environment file is in this workspace: because its cleaned name opens it, or already.
   */
  lemma ValidatingWhatWasPrepared(before: Tree, after: Tree, rules: Rules, envRules: Rules, p: Projection, paths: seq<string>,
                                  checked: seq<string>, referred: seq<string>)
    requires WellFormed(before) && Prepared(before, after, rules, envRules, p, paths)
    requires forall x :: x in paths <==> x in checked
    requires !rules.Blank() ==> p.env != ""
    ensures Accepts(after, rules, p, checked, referred) <==> Sound(before, rules, Home(rules, envRules), p, paths, referred)
  {
    ValidatingAnother(before, after, rules, envRules, p, p, paths, checked, referred);
    RenewingItself(before, rules, Home(rules, envRules), p, paths, referred);
  }

  /** A written file reads back. */
  lemma WriteReadsBack(before: Tree, rules: Rules, writes: seq<Write>, i: nat, path: string)
    requires WellFormed(before) && AllWritable(before, writes) && Consistent(writes) && !rules.Blank()
    requires i < |writes| && writes[i].target == rules.target(path) && writes[i].node.File?
    ensures ReadOf(WriteAll(before, writes), rules, path) == Bytes(writes[i].node.mode, writes[i].node.content)
  {
    WriteAllIsWellFormed(before, writes);
    EveryWriteSurvivesExactly(before, writes);
    WritesFiles(before, writes, i);
    ReadingIsHolding(WriteAll(before, writes), rules, path, writes[i].node);
  }

  /** After a consistent preparation every path reads as the content recorded for it, with the mode recorded for it or 0644. */
  lemma PreparedReadsBack(before: Tree, after: Tree, rules: Rules, envRules: Rules, p: Projection, paths: seq<string>, i: nat)
    requires WellFormed(before) && Prepared(before, after, rules, envRules, p, paths) && !rules.Blank() && i < |paths|
    requires Consistent(AllWrites(rules, p, paths, Home(rules, envRules)))
    ensures ReadOf(after, rules, paths[i]) == Bytes(
      if paths[i] in p.modes && p.modes[paths[i]] != 0 then p.modes[paths[i]] % 0x200 else 0x1A4,
      if paths[i] in p.contents then p.contents[paths[i]] else "")
  {
    var writes := AllWrites(rules, p, paths, Home(rules, envRules));
    assert writes[i] == WriteOf(rules, p, paths[i]);
    WriteReadsBack(before, rules, writes, i, paths[i]);
    RecordedWrite(rules, p, paths[i]);
  }

  lemma RecordedWrite(rules: Rules, p: Projection, path: string)
    ensures WriteOf(rules, p, path).node == File(
      if path in p.modes && p.modes[path] != 0 then p.modes[path] % 0x200 else 0x1A4, if path in p.contents then p.contents[path] else "")
  {
  }

  /** And the environment file, in its own workspace, as its text with mode 0600, even if a generated file goes there too. */
  lemma EnvironmentReadsBack(before: Tree, after: Tree, rules: Rules, envRules: Rules, p: Projection, paths: seq<string>)
    requires WellFormed(before) && Prepared(before, after, rules, envRules, p, paths) && !rules.Blank()
    requires Home(rules, envRules) && p.env != ""
    ensures ReadOf(after, rules, p.envPath) == Bytes(0x180, p.env)
  {
    var writes := AllWrites(rules, p, paths, true);
    assert |writes| == |paths| + 1 && writes[|paths|] == EnvWrite(rules, p);
    WriteAllIsWellFormed(before, writes);
    LastWriteDecides(before, writes, |paths|);
    ReadingIsHolding(after, rules, p.envPath, File(PRIVATE_MODE, p.env));
  }

  /** In particular it accepts it when every file is generated, no two to the same place and none to restore.env. */
  lemma DistinctFilesAreAccepted(before: Tree, after: Tree, rules: Rules, p: Projection, paths: seq<string>,
                                 referred: seq<string>)
    requires WellFormed(before) && Prepared(before, after, rules, rules, p, paths) && !rules.Blank() && p.env != ""
    requires forall i, j | 0 <= i < j < |paths| :: rules.target(paths[i]) != rules.target(paths[j])
    requires forall i | 0 <= i < |paths| :: rules.target(paths[i]) != rules.target(p.envPath)
    requires forall i | 0 <= i < |referred| :: referred[i] in paths
    ensures Accepts(after, rules, p, paths, referred)
  {
    var writes := AllWrites(rules, p, paths, true);
    ValidatingWhatWasPrepared(before, after, rules, rules, p, paths, paths, referred);
    TargetsAreThere(before, rules, p, paths, true);
    forall i | 0 <= i < |referred| ensures Supplied(before, writes, rules.target(referred[i])) {
      var j :| 0 <= j < |paths| && paths[j] == referred[i];
      assert writes[j].target == rules.target(referred[i]);
    }
    assert Consistent(writes);
  }

  /** Two generated paths of one file with different contents make it refuse what was just prepared. */
  lemma TwoPathsToOneFile(before: Tree, after: Tree, rules: Rules, envRules: Rules, p: Projection, paths: seq<string>,
                          referred: seq<string>, i: nat, j: nat)
    requires WellFormed(before) && Prepared(before, after, rules, envRules, p, paths) && (!rules.Blank() ==> p.env != "")
    requires i < j < |paths| && rules.target(paths[i]) == rules.target(paths[j])
    requires ContentOf(p, paths[i]) != ContentOf(p, paths[j])
    ensures !Accepts(after, rules, p, paths, referred)
  {
    var writes := AllWrites(rules, p, paths, Home(rules, envRules));
    ValidatingWhatWasPrepared(before, after, rules, envRules, p, paths, paths, referred);
    assert writes[i] == WritesOf(rules, p, paths)[i] && writes[j] == WritesOf(rules, p, paths)[j];
  }

  /** So does a workspace whose cleaned name opens another directory, unless the right file happens to be there. */
  lemma ForeignEnvironmentIsRefused(before: Tree, after: Tree, rules: Rules, envRules: Rules, p: Projection, paths: seq<string>,
                                    referred: seq<string>)
    requires WellFormed(before) && Prepared(before, after, rules, envRules, p, paths) && (!rules.Blank() ==> p.env != "")
    requires !Home(rules, envRules)
    requires rules.target(p.envPath) !in before && forall i | 0 <= i < |paths| :: rules.target(paths[i]) != rules.target(p.envPath)
    ensures !Accepts(after, rules, p, paths, referred)
  {
    ValidatingWhatWasPrepared(before, after, rules, envRules, p, paths, paths, referred);
    var writes := AllWrites(rules, p, paths, false);
    assert writes == WritesOf(rules, p, paths);
    assert !Written(writes, rules.target(p.envPath));
  }

  /** As in a workspace called "./ a": it is opened as " a", and its environment file is written below "a". */
  lemma BlankNameIsNotHome(blanks: nat, name: string)
    requires blanks > 0 && ProperName(name) && Trimmed(name)
    ensures var workspace := "." + ['/'] + (Spaces(blanks) + name);
      RulesOf(workspace).directory == Spaces(blanks) + name && !Home(RulesOf(workspace), RulesOf(Cleaned(workspace)))
  {
    var workspace := "." + ['/'] + (Spaces(blanks) + name);
    NamedWithBlanks(blanks, name);
    CleanedWorkspaceIsTheSameExactly(workspace);
  }

  /**
   * Or, made absolute before, in one called "/x / /": it is opened as "/x ", and its environment file is written
   * below "/x".
   */
  lemma AbsoluteNameIsNotHome(name: string, blanks: nat, more: nat)
    requires ProperName(name) && blanks > 0 && more > 0
    ensures var workspace := ['/'] + (name + Spaces(blanks)) + ['/'] + Spaces(more);
      && Cleaned(workspace + ['/']) == workspace
      && RulesOf(workspace).directory == ['/'] + (name + Spaces(blanks))
      && !Home(RulesOf(workspace), RulesOf(Cleaned(workspace)))
  {
    AbsoluteWithBlanks(name, blanks, more);
    CleanedWorkspaceIsTheSameExactly(['/'] + (name + Spaces(blanks)) + ['/'] + Spaces(more));
  }

  /** The order in which a map yields its keys makes no difference to which paths there are. */
  lemma OrderOfKeysDoesNotMatter(clean: string -> string, keys: seq<string>, again: seq<string>, order: seq<string>)
    requires forall k :: k in keys <==> k in again
    ensures forall x :: x in GeneratedPaths(clean, keys, order) <==> x in GeneratedPaths(clean, again, order)
  {
    forall x ensures x in GeneratedPaths(clean, keys, order) <==> x in GeneratedPaths(clean, again, order) {
      GeneratedPathsMembers(clean, keys, order, x);
      GeneratedPathsMembers(clean, again, order, x);
    }
  }
}
