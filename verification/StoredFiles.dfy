/**
 * The generated files as the Store holds them, under keys that need not be clean. Each command folds them to cleaned
 * paths anew, in whatever order the map yields them.
 */
module StoredFiles {
  import opened Text
  import opened Paths
  import opened FileTree
  import opened Projecting
  import opened Workspace
  import opened Lifecycle

  datatype Entry = Entry(key: string, content: string)

  /** What does not depend on the fold: the modes by cleaned path, and the environment file. */
  datatype Settings = Settings(modes: map<string, nat>, envPath: string, env: string)

  function Folded(clean: string -> string, raw: seq<Entry>): map<string, string>
    decreases |raw|
  {
    if raw == [] then map[]
    else
      var init, last := Folded(clean, raw[..|raw| - 1]), raw[|raw| - 1];
      if clean(last.key) == "." then init else init[clean(last.key) := last.content]
  }

  /** generatedFileContentMapFromAny, over the entries in the order the map yields them. */
  method FoldContents(clean: string -> string, raw: seq<Entry>) returns (contents: map<string, string>)
    ensures contents == Folded(clean, raw)
  {
    contents := map[];
    for i := 0 to |raw|
      invariant contents == Folded(clean, raw[..i])
    {
      assert raw[..i + 1][..i] == raw[..i];
      var path := clean(raw[i].key);
      if path != "." {
        contents := contents[path := raw[i].content];
      }
    }
    assert raw[..|raw|] == raw;
  }

  function ProjectionOf(clean: string -> string, raw: seq<Entry>, s: Settings): Projection {
    Projection(Folded(clean, raw), s.modes, s.envPath, s.env)
  }

  /** The keys of a map in some order. */
  ghost predicate Enumerates(keys: seq<string>, contents: map<string, string>) {
    (forall i, j | 0 <= i < j < |keys| :: keys[i] != keys[j]) && forall k :: k in keys <==> k in contents
  }

  /** The same entries in another order. */
  predicate Reordered(raw: seq<Entry>, again: seq<Entry>) {
    multiset(raw) == multiset(again)
  }

  predicate Gives(clean: string -> string, entry: Entry, path: string) {
    clean(entry.key) == path && path != "."
  }

  /** No two keys that clean to one and the same of these paths have different contents. */
  predicate Unambiguous(clean: string -> string, raw: seq<Entry>, paths: seq<string>) {
    forall a, b | a in raw && b in raw :: clean(a.key) == clean(b.key) && Gives(clean, a, clean(a.key)) && clean(a.key) in paths ==> a.content == b.content
  }

  // ----- What a fold holds -----

  /** A path is there if some key cleans to it, and holds what one of these keys held. */
  lemma {:induction false} FoldedMembers(clean: string -> string, raw: seq<Entry>, path: string)
    ensures path in Folded(clean, raw) <==> exists e | e in raw :: Gives(clean, e, path)
    ensures path in Folded(clean, raw) ==> exists e | e in raw :: Gives(clean, e, path) && e.content == Folded(clean, raw)[path]
    decreases |raw|
  {
    if raw != [] {
      var init, last := raw[..|raw| - 1], raw[|raw| - 1];
      FoldedMembers(clean, init, path);
      assert forall e :: e in raw <==> e in init || e == last by {
        assert raw == init + [last];
      }
      if Gives(clean, last, path) {
        assert last in raw;
      } else if path in Folded(clean, init) {
        var e :| e in init && Gives(clean, e, path) && e.content == Folded(clean, init)[path];
        assert e in raw;
      }
    }
  }

  lemma SameEntries(raw: seq<Entry>, again: seq<Entry>)
    requires Reordered(raw, again)
    ensures forall e :: e in raw <==> e in again
  {
    forall e ensures e in raw <==> e in again {
      assert e in raw <==> e in multiset(raw);
      assert e in again <==> e in multiset(again);
    }
  }

  lemma SameKeys(clean: string -> string, raw: seq<Entry>, again: seq<Entry>, path: string)
    requires Reordered(raw, again)
    ensures path in Folded(clean, raw) <==> path in Folded(clean, again)
  {
    SameEntries(raw, again);
    FoldedMembers(clean, raw, path);
    FoldedMembers(clean, again, path);
  }

  lemma SameContents(clean: string -> string, raw: seq<Entry>, again: seq<Entry>, s: Settings, paths: seq<string>, path: string)
    requires Reordered(raw, again) && Unambiguous(clean, raw, paths) && path in paths
    ensures ContentOf(ProjectionOf(clean, raw, s), path) == ContentOf(ProjectionOf(clean, again, s), path)
  {
    SameEntries(raw, again);
    SameKeys(clean, raw, again, path);
    FoldedMembers(clean, raw, path);
    FoldedMembers(clean, again, path);
    if path in Folded(clean, raw) {
      var a :| a in raw && Gives(clean, a, path) && a.content == Folded(clean, raw)[path];
      var b :| b in again && Gives(clean, b, path) && b.content == Folded(clean, again)[path];
      assert a.content == b.content;
    }
  }

  /** The same entries with one of them moved to the end, where it decides. */
  function MovedLast(raw: seq<Entry>, i: nat): seq<Entry>
    requires i < |raw|
  {
    raw[..i] + raw[i + 1..] + [raw[i]]
  }

  lemma LastDecides(clean: string -> string, raw: seq<Entry>, i: nat, s: Settings)
    requires i < |raw| && clean(raw[i].key) != "."
    ensures Reordered(raw, MovedLast(raw, i))
    ensures ContentOf(ProjectionOf(clean, MovedLast(raw, i), s), clean(raw[i].key)) == raw[i].content
  {
    var moved := MovedLast(raw, i);
    assert raw == raw[..i] + [raw[i]] + raw[i + 1..];
    assert moved[..|moved| - 1] == raw[..i] + raw[i + 1..] && moved[|moved| - 1] == raw[i];
  }

  // ----- Materialise, then validate -----

  /** Two folds that agree on the paths renew the same trees. */
  lemma AgreeingFolds(before: Tree, rules: Rules, home: bool, raw: seq<Entry>, again: seq<Entry>, s: Settings, paths: seq<string>,
                      referred: seq<string>)
    requires Reordered(raw, again) && Unambiguous(rules.clean, raw, paths)
    ensures var p, q := ProjectionOf(rules.clean, raw, s), ProjectionOf(rules.clean, again, s);
      Renews(before, rules, home, p, q, paths, referred) <==> Renews(before, rules, home, p, p, paths, referred)
  {
    var p, q := ProjectionOf(rules.clean, raw, s), ProjectionOf(rules.clean, again, s);
    forall i | 0 <= i < |paths| ensures WriteOf(rules, q, paths[i]) == WriteOf(rules, p, paths[i]) {
      SameContents(rules.clean, raw, again, s, paths, paths[i]);
    }
    assert EnvWrite(rules, q) == EnvWrite(rules, p);
  }

  lemma AcceptedContent(tree: Tree, rules: Rules, p: Projection, paths: seq<string>, referred: seq<string>, path: string)
    requires Accepts(tree, rules, p, paths, referred) && path in paths
    ensures ReadOf(tree, rules, path) == Bytes(Perm(ModeOf(p, path)), ContentOf(p, path))
  {
    var i :| 0 <= i < |paths| && paths[i] == path;
    assert MatchesNode(tree, rules, paths[i], WriteOf(rules, p, paths[i]).node);
  }

  /**
   * After a preparation, the validator accepts whatever order it folds the entries in, if and only if the projection
   * that was prepared is sound and no two keys that clean to one of its paths differ.
   */
  lemma EveryFoldIsAcceptedExactly(before: Tree, after: Tree, rules: Rules, envRules: Rules, raw: seq<Entry>, s: Settings,
                                   paths: seq<string>, referred: seq<string>)
    requires WellFormed(before) && Prepared(before, after, rules, envRules, ProjectionOf(rules.clean, raw, s), paths)
    requires !rules.Blank() ==> s.env != ""
    ensures (forall again | Reordered(raw, again) :: Accepts(after, rules, ProjectionOf(rules.clean, again, s), paths, referred)) <==>
      && Sound(before, rules, Home(rules, envRules), ProjectionOf(rules.clean, raw, s), paths, referred)
      && Unambiguous(rules.clean, raw, paths)
  {
    var p, home := ProjectionOf(rules.clean, raw, s), Home(rules, envRules);
    ValidatingWhatWasPrepared(before, after, rules, envRules, p, paths, paths, referred);
    if Sound(before, rules, home, p, paths, referred) && Unambiguous(rules.clean, raw, paths) {
      forall again | Reordered(raw, again) ensures Accepts(after, rules, ProjectionOf(rules.clean, again, s), paths, referred) {
        ValidatingAnother(before, after, rules, envRules, p, ProjectionOf(rules.clean, again, s), paths, paths, referred);
        AgreeingFolds(before, rules, home, raw, again, s, paths, referred);
        RenewingItself(before, rules, home, p, paths, referred);
      }
    }
    if forall again | Reordered(raw, again) :: Accepts(after, rules, ProjectionOf(rules.clean, again, s), paths, referred) {
      assert Reordered(raw, raw);
      AllFoldsAgree(after, rules, raw, s, paths, referred);
    }
  }

  lemma AllFoldsAgree(after: Tree, rules: Rules, raw: seq<Entry>, s: Settings, paths: seq<string>, referred: seq<string>)
    requires forall again | Reordered(raw, again) :: Accepts(after, rules, ProjectionOf(rules.clean, again, s), paths, referred)
    ensures Unambiguous(rules.clean, raw, paths)
  {
    forall a, b | a in raw && b in raw && rules.clean(a.key) == rules.clean(b.key) && Gives(rules.clean, a, rules.clean(a.key)) && rules.clean(a.key) in paths
      ensures a.content == b.content
    {
      assert ReadOf(after, rules, rules.clean(a.key)).content == a.content by {
        AcceptedLast(after, rules, raw, s, paths, referred, a);
      }
      AcceptedLast(after, rules, raw, s, paths, referred, b);
    }
  }

  lemma AcceptedLast(after: Tree, rules: Rules, raw: seq<Entry>, s: Settings, paths: seq<string>, referred: seq<string>, entry: Entry)
    requires forall again | Reordered(raw, again) :: Accepts(after, rules, ProjectionOf(rules.clean, again, s), paths, referred)
    requires entry in raw && rules.clean(entry.key) != "." && rules.clean(entry.key) in paths
    ensures var r := ReadOf(after, rules, rules.clean(entry.key)); r.Bytes? && r.content == entry.content
  {
    var i :| 0 <= i < |raw| && raw[i] == entry;
    LastDecides(rules.clean, raw, i, s);
    AcceptedContent(after, rules, ProjectionOf(rules.clean, MovedLast(raw, i), s), paths, referred, rules.clean(entry.key));
  }

  /** What is promised of preparing one fold and validating another. */
  ghost predicate RoundTrip(before: Tree, rules: Rules, home: bool, raw: seq<Entry>, again: seq<Entry>, s: Settings, paths: seq<string>,
                            referred: seq<string>, reliable: bool, prepared: bool, valid: bool) {
    var p, q := ProjectionOf(rules.clean, raw, s), ProjectionOf(rules.clean, again, s);
    var renews, sound := Renews(before, rules, home, p, q, paths, referred), Sound(before, rules, home, p, paths, referred);
    && (prepared && valid ==> renews) && (prepared && reliable && renews ==> valid)
    && (prepared && Unambiguous(rules.clean, raw, paths) ==> (renews <==> sound))
  }

  /**
   * The two commands one after the other, each with its own fold: the validator, undisturbed, accepts exactly if the
   * second fold renews the first, which for unambiguous keys means that the first is sound.
   */
  method PrepareThenValidate(root: Root, rules: Rules, envRoot: Root, envRules: Rules, raw: seq<Entry>, again: seq<Entry>,
                             keys: seq<string>, keysAgain: seq<string>, order: seq<string>, s: Settings, referred: seq<string>)
    returns (prepared: bool, valid: bool)
    requires root.Valid() && envRoot.Valid() && Opens(root, rules, envRoot, envRules)
    requires Reordered(raw, again) && Enumerates(keys, Folded(rules.clean, raw)) && Enumerates(keysAgain, Folded(rules.clean, again))
    requires !rules.Blank() ==> s.env != ""
    requires forall path | path in s.modes :: s.modes[path] < 0x200
    modifies root, envRoot
    ensures RoundTrip(old(root.tree), rules, Home(rules, envRules), raw, again, s, GeneratedPaths(rules.clean, keys, order), referred,
                      root.Reliable(), prepared, valid)
  {
    ghost var before := root.tree;
    var contents := FoldContents(rules.clean, raw);
    var p := Projection(contents, s.modes, s.envPath, s.env);
    var paths := GeneratedFilePaths(rules.clean, keys, order);
    valid := false;
    prepared := PrepareBy(root, rules, envRoot, envRules, p, paths);
    ghost var after := root.tree;
    if prepared {
      contents := FoldContents(rules.clean, again);
      var q := Projection(contents, s.modes, s.envPath, s.env);
      var checked := GeneratedFilePaths(rules.clean, keysAgain, order);
      EnumeratedAgain(rules.clean, raw, again, keys, keysAgain);
      OrderOfKeysDoesNotMatter(rules.clean, keys, keysAgain, order);
      ValidatingAnother(before, after, rules, envRules, p, q, paths, checked, referred);
      WhenUnambiguous(before, after, rules, envRules, raw, again, s, paths, referred);
      valid := Validate(root, rules, q, checked, referred);
    }
  }

  lemma EnumeratedAgain(clean: string -> string, raw: seq<Entry>, again: seq<Entry>, keys: seq<string>, keysAgain: seq<string>)
    requires Reordered(raw, again) && Enumerates(keys, Folded(clean, raw)) && Enumerates(keysAgain, Folded(clean, again))
    ensures forall k :: k in keys <==> k in keysAgain
  {
    forall k ensures k in keys <==> k in keysAgain {
      SameKeys(clean, raw, again, k);
    }
  }

  lemma WhenUnambiguous(before: Tree, after: Tree, rules: Rules, envRules: Rules, raw: seq<Entry>, again: seq<Entry>, s: Settings,
                        paths: seq<string>, referred: seq<string>)
    requires Prepared(before, after, rules, envRules, ProjectionOf(rules.clean, raw, s), paths)
    requires Reordered(raw, again) && (!rules.Blank() ==> s.env != "")
    ensures var p, q, home := ProjectionOf(rules.clean, raw, s), ProjectionOf(rules.clean, again, s), Home(rules, envRules);
      Unambiguous(rules.clean, raw, paths) ==>
        (Renews(before, rules, home, p, q, paths, referred) <==> Sound(before, rules, home, p, paths, referred))
  {
    if Unambiguous(rules.clean, raw, paths) {
      AgreeingFolds(before, rules, Home(rules, envRules), raw, again, s, paths, referred);
      RenewingItself(before, rules, Home(rules, envRules), ProjectionOf(rules.clean, raw, s), paths, referred);
    }
  }

  // ----- Which files are written at all -----

  /** A file of the Store is in the tree, content and mode, exactly if the last write to it, or the old tree, has that. */
  lemma FileLandsExactly(before: Tree, after: Tree, rules: Rules, envRules: Rules, p: Projection, paths: seq<string>, key: string)
    requires WellFormed(before) && Prepared(before, after, rules, envRules, p, paths) && !rules.Blank()
    ensures MatchesNode(after, rules, key, WriteOf(rules, p, key).node) <==>
      rules.target(key) != [] && Leaves(before, AllWrites(rules, p, paths, Home(rules, envRules)), WriteOf(rules, p, key))
  {
    var writes := AllWrites(rules, p, paths, Home(rules, envRules));
    WriteAllIsWellFormed(before, writes);
    ReadingIsHolding(after, rules, key, WriteOf(rules, p, key).node);
    LeavesExactly(before, writes, WriteOf(rules, p, key));
  }

  /**
   * So every file of an accepted projection is in the tree if and only if each one whose cleaned path is none of the
   * paths happens to be left there all the same.
   */
  lemma EveryFileLandsExactly(before: Tree, after: Tree, rules: Rules, envRules: Rules, p: Projection, paths: seq<string>,
                              referred: seq<string>)
    requires WellFormed(before) && Prepared(before, after, rules, envRules, p, paths) && !rules.Blank()
    requires Accepts(after, rules, p, paths, referred)
    ensures (forall key | key in p.contents :: MatchesNode(after, rules, key, WriteOf(rules, p, key).node)) <==>
      (forall key | key in p.contents && key !in paths ::
        rules.target(key) != [] && Leaves(before, AllWrites(rules, p, paths, Home(rules, envRules)), WriteOf(rules, p, key)))
  {
    forall key | key in p.contents
      ensures MatchesNode(after, rules, key, WriteOf(rules, p, key).node) <==>
        rules.target(key) != [] && Leaves(before, AllWrites(rules, p, paths, Home(rules, envRules)), WriteOf(rules, p, key))
      ensures key in paths ==> MatchesNode(after, rules, key, WriteOf(rules, p, key).node)
    {
      FileLandsExactly(before, after, rules, envRules, p, paths, key);
      if key in paths {
        AcceptedContent(after, rules, p, paths, referred, key);
      }
    }
  }

  /** In particular they all are if every cleaned path is listed in the order or has no white space at its ends. */
  lemma TrimmedOrListedLand(before: Tree, after: Tree, rules: Rules, envRules: Rules, raw: seq<Entry>, s: Settings, keys: seq<string>,
                            order: seq<string>, referred: seq<string>)
    requires rules.clean == Cleaned && Enumerates(keys, Folded(Cleaned, raw)) && WellFormed(before) && !rules.Blank()
    requires var p, paths := ProjectionOf(Cleaned, raw, s), GeneratedPaths(Cleaned, keys, order);
      Prepared(before, after, rules, envRules, p, paths) && Accepts(after, rules, p, paths, referred)
    requires forall key | key in keys :: Trimmed(key) || Listed(Cleaned, keys, order, key)
    ensures var p := ProjectionOf(Cleaned, raw, s);
      forall key | key in p.contents :: MatchesNode(after, rules, key, WriteOf(rules, p, key).node)
  {
    var p, paths := ProjectionOf(Cleaned, raw, s), GeneratedPaths(Cleaned, keys, order);
    forall key | key in p.contents ensures key in paths {
      FoldedMembers(Cleaned, raw, key);
      var e :| e in raw && Gives(Cleaned, e, key);
      CleanedAgainExactly(e.key);
      GeneratedPathsMembers(Cleaned, keys, order, key);
    }
    EveryFileLandsExactly(before, after, rules, envRules, p, paths, referred);
  }

  // ----- Where it goes wrong -----

  /** A key that cleans to a path which itself cleans to another one, the name of the file both lead to. */
  predicate Pads(rules: Rules, key: string, padded: string, name: string) {
    && rules.clean(key) == padded && rules.clean(padded) == name == rules.clean(name) && padded != name
    && padded != "." && name != "." && rules.target(padded) == rules.target(name)
  }

  /** Such as "./ a", " a" and "a". */
  lemma BlanksPad(workspace: string, blanks: nat, name: string)
    requires blanks > 0 && ProperName(name) && Trimmed(name)
    ensures var padded := Spaces(blanks) + name; Pads(RulesOf(workspace), "." + ['/'] + padded, padded, name)
  {
    NamedWithBlanks(blanks, name);
    NameIsClean(name);
    TrimIndented(blanks, name);
    var padded := Spaces(blanks) + name;
    assert |padded| == blanks + |name| && padded[0] == ' ';
  }

  lemma FoldOfTwo(clean: string -> string, a: Entry, b: Entry)
    requires clean(a.key) != "." && clean(b.key) != "."
    ensures Folded(clean, [a, b]) == map[clean(a.key) := a.content][clean(b.key) := b.content]
    ensures Reordered([a, b], [b, a])
  {
    assert [a, b][..1] == [a] && [a][..0] == [];
    assert Folded(clean, []) == map[];
    assert Folded(clean, [a]) == map[clean(a.key) := a.content];
  }

  lemma KeyIsAPath(clean: string -> string, keys: seq<string>, order: seq<string>, key: string, path: string)
    requires key in keys && path != "." && (clean(key) == path || (key == path && exists o | o in order :: clean(o) == path))
    ensures path in GeneratedPaths(clean, keys, order)
  {
    GeneratedPathsMembers(clean, keys, order, path);
  }

  /**
   * Two keys of one file, such as "./a" and "a", with different contents: whichever of them a fold takes, the validator
   * can take the other one and refuse what was prepared.
   */
  lemma AmbiguousKeyIsRefused(after: Tree, rules: Rules, a: Entry, b: Entry, name: string, s: Settings, keys: seq<string>,
                              order: seq<string>, referred: seq<string>)
    requires rules.clean(a.key) == rules.clean(b.key) == rules.clean(name) == name != "." && a.content != b.content
    requires Enumerates(keys, Folded(rules.clean, [a, b]))
    requires Accepts(after, rules, ProjectionOf(rules.clean, [a, b], s), GeneratedPaths(rules.clean, keys, order), referred)
    ensures Reordered([a, b], [b, a])
    ensures !Accepts(after, rules, ProjectionOf(rules.clean, [b, a], s), GeneratedPaths(rules.clean, keys, order), referred)
  {
    var paths := GeneratedPaths(rules.clean, keys, order);
    FoldOfTwo(rules.clean, a, b);
    FoldOfTwo(rules.clean, b, a);
    KeyIsAPath(rules.clean, keys, order, name, name);
    AcceptedContent(after, rules, ProjectionOf(rules.clean, [a, b], s), paths, referred, name);
    if Accepts(after, rules, ProjectionOf(rules.clean, [b, a], s), paths, referred) {
      AcceptedContent(after, rules, ProjectionOf(rules.clean, [b, a], s), paths, referred, name);
    }
  }

  /** As "./a" and "a" are. */
  lemma DottedIsAmbiguous(workspace: string, name: string)
    requires ProperName(name) && Trimmed(name)
    ensures var clean := RulesOf(workspace).clean; clean("." + ['/'] + name) == clean(name) == name != "."
  {
    NameIsClean(name);
  }

  /** Files stored under "./ a" and "a", the first one listed: both are written to one place, and then refused. */
  lemma PaddedNameIsRefused(before: Tree, after: Tree, rules: Rules, envRules: Rules, a: Entry, b: Entry, padded: string, name: string,
                            s: Settings, keys: seq<string>, referred: seq<string>)
    requires Pads(rules, a.key, padded, name) && b.key == name && a.content != b.content
    requires Enumerates(keys, Folded(rules.clean, [a, b])) && WellFormed(before) && (!rules.Blank() ==> s.env != "")
    requires Prepared(before, after, rules, envRules, ProjectionOf(rules.clean, [a, b], s), GeneratedPaths(rules.clean, keys, [a.key]))
    ensures !Accepts(after, rules, ProjectionOf(rules.clean, [a, b], s), GeneratedPaths(rules.clean, keys, [a.key]), referred)
  {
    var p, paths := ProjectionOf(rules.clean, [a, b], s), GeneratedPaths(rules.clean, keys, [a.key]);
    FoldOfTwo(rules.clean, a, b);
    assert a.key in [a.key];
    KeyIsAPath(rules.clean, keys, [a.key], padded, padded);
    KeyIsAPath(rules.clean, keys, [a.key], name, name);
    var i :| 0 <= i < |paths| && paths[i] == padded;
    var j :| 0 <= j < |paths| && paths[j] == name;
    TwoPathsToOneFile(before, after, rules, envRules, p, paths, referred, if i < j then i else j, if i < j then j else i);
  }

  /** A file stored under "./ a" and not listed is lost: an empty one is written to "a" in its place, and accepted. */
  lemma LostFileIsAccepted(before: Tree, after: Tree, rules: Rules, envRules: Rules, a: Entry, padded: string, name: string, s: Settings,
                           keys: seq<string>, referred: seq<string>)
    requires Pads(rules, a.key, padded, name) && a.content != ""
    requires Enumerates(keys, Folded(rules.clean, [a])) && WellFormed(before) && (!rules.Blank() ==> s.env != "")
    requires var p, paths := ProjectionOf(rules.clean, [a], s), GeneratedPaths(rules.clean, keys, []);
      Prepared(before, after, rules, envRules, p, paths) && Sound(before, rules, Home(rules, envRules), p, paths, referred)
    ensures var p, paths := ProjectionOf(rules.clean, [a], s), GeneratedPaths(rules.clean, keys, []);
      && Accepts(after, rules, p, paths, referred) && ContentOf(p, padded) == a.content
      && ReadOf(after, rules, name) == ReadOf(after, rules, padded) == Bytes(Perm(ModeOf(p, name)), "")
  {
    var p, paths := ProjectionOf(rules.clean, [a], s), GeneratedPaths(rules.clean, keys, []);
    assert [a][..0] == [] && Folded(rules.clean, []) == map[];
    assert p.contents == map[padded := a.content];
    KeyIsAPath(rules.clean, keys, [], padded, name);
    ValidatingWhatWasPrepared(before, after, rules, envRules, p, paths, paths, referred);
    AcceptedContent(after, rules, p, paths, referred, name);
  }
}
