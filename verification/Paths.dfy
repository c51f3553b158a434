/** File paths as Go's `path/filepath` treats them on Unix, and the two checks of workspace paths. */
module Paths {
  import opened Text

  predicate IsAbs(path: string) {
    HasPrefix(path, "/")
  }

  /** The elements that are left of a path once empty ones and "." are dropped and ".." is resolved. */
  function Resolve(rooted: bool, stack: seq<string>, elements: seq<string>): seq<string>
    decreases |elements|
  {
    if elements == [] then stack
    else Resolve(rooted, Push(rooted, stack, elements[0]), elements[1..])
  }

  function Push(rooted: bool, stack: seq<string>, element: string): seq<string> {
    if element == "" || element == "." then stack
    else if element != ".." then stack + [element]
    else if stack != [] && stack[|stack| - 1] != ".." then stack[..|stack| - 1]
    else if rooted then stack
    else stack + [".."]
  }

  /** The elements of a cleaned path. */
  function Parts(path: string): seq<string> {
    Resolve(IsAbs(path), [], Split(path, '/'))
  }

  /** filepath.Clean. */
  function Clean(path: string): string {
    if IsAbs(path) then "/" + Join(Parts(path), '/')
    else if Parts(path) == [] then "."
    else Join(Parts(path), '/')
  }

  /** filepath.Join of two elements. */
  function JoinPaths(a: string, b: string): string {
    if a == "" then (if b == "" then "" else Clean(b))
    else if b == "" then Clean(a)
    else Clean(a + "/" + b)
  }

  /** The elements of a cleaned path: proper names, after any leading ".." of a relative path. */
  predicate Normal(rooted: bool, parts: seq<string>) {
    && (forall i | 0 <= i < |parts| :: parts[i] != "" && parts[i] != "." && '/' !in parts[i])
    && (forall i | 0 <= i < |parts| && parts[i] == ".." :: !rooted && forall j | 0 <= j < i :: parts[j] == "..")
  }

  lemma {:induction false} ResolveNormal(rooted: bool, stack: seq<string>, elements: seq<string>)
    requires Normal(rooted, stack) && forall e | e in elements :: '/' !in e
    ensures Normal(rooted, Resolve(rooted, stack, elements))
    decreases |elements|
  {
    if elements != [] {
      assert elements[0] in elements;
      ResolveNormal(rooted, Push(rooted, stack, elements[0]), elements[1..]);
    }
  }

  lemma PartsNormal(path: string)
    ensures Normal(IsAbs(path), Parts(path))
  {
    ResolveNormal(IsAbs(path), [], Split(path, '/'));
  }

  /** Normal elements are pushed one by one and stay as they are. */
  lemma {:induction false} ResolveKeeps(rooted: bool, stack: seq<string>, parts: seq<string>)
    requires Normal(rooted, stack + parts)
    ensures Resolve(rooted, stack, parts) == stack + parts
    decreases |parts|
  {
    if parts == [] {
      assert stack + parts == stack;
    } else {
      var all := stack + parts;
      assert all[|stack|] == parts[0];
      if parts[0] == ".." && stack != [] {
        assert all[|stack| - 1] == stack[|stack| - 1];
      }
      assert stack + [parts[0]] + parts[1..] == all;
      ResolveKeeps(rooted, stack + [parts[0]], parts[1..]);
    }
  }

  lemma {:induction false} ResolveAppend(rooted: bool, stack: seq<string>, a: seq<string>, b: seq<string>)
    ensures Resolve(rooted, stack, a + b) == Resolve(rooted, Resolve(rooted, stack, a), b)
    decreases |a|
  {
    if a == [] {
      assert a + b == b;
    } else {
      assert (a + b)[1..] == a[1..] + b;
      ResolveAppend(rooted, Push(rooted, stack, a[0]), a[1..], b);
    }
  }

  lemma {:induction false} JoinedNames(parts: seq<string>)
    requires parts != [] && forall i | 0 <= i < |parts| :: parts[i] != "" && '/' !in parts[i]
    ensures Join(parts, '/') != "" && Join(parts, '/')[0] == parts[0][0]
    ensures Split(Join(parts, '/'), '/') == parts
  {
    forall p | p in parts ensures '/' !in p {
      var i :| 0 <= i < |parts| && parts[i] == p;
    }
    SplitJoin(parts, '/');
  }

  lemma ResolveEmpty(rooted: bool, stack: seq<string>)
    ensures Resolve(rooted, stack, [""]) == stack
  {
    assert [""][1..] == [];
  }

  lemma RootedKeepsParts(clean: string, empty: string, rest: string, parts: seq<string>)
    requires Normal(true, parts) && empty == "" && rest == Join(parts, '/') && clean == empty + ['/'] + rest
    ensures IsAbs(clean) && Parts(clean) == parts
  {
    assert clean[..1] == "/";
    SplitHead(empty, '/', rest);
    ResolveAppend(true, [], [empty], Split(rest, '/'));
    ResolveEmpty(true, []);
    if parts == [] {
      assert Split(rest, '/') == [""];
    } else {
      JoinedNames(parts);
      ResolveKeeps(true, [], parts);
      assert [] + parts == parts;
    }
  }

  lemma RelativeKeepsParts(clean: string, parts: seq<string>)
    requires Normal(false, parts) && parts != [] && clean == Join(parts, '/')
    ensures !IsAbs(clean) && Parts(clean) == parts
  {
    JoinedNames(parts);
    assert '/' !in parts[0];
    assert parts[0][0] in parts[0];
    ResolveKeeps(false, [], parts);
    assert [] + parts == parts;
  }

  lemma DotHasNoParts(dot: string)
    requires dot == "."
    ensures !IsAbs(dot) && Parts(dot) == []
  {
    assert dot == ['.'];
    SplitJoin([dot], '/');
    SkipDot(dot, []);
    assert [dot] + [] == [dot];
  }

  /** A cleaned path has the same elements as the path it was made from, and is absolute exactly if that one is. */
  lemma CleanKeepsParts(path: string)
    ensures IsAbs(Clean(path)) == IsAbs(path) && Parts(Clean(path)) == Parts(path)
  {
    var parts := Parts(path);
    PartsNormal(path);
    if IsAbs(path) {
      var empty, rest := "", Join(parts, '/');
      assert "/" + rest == empty + ['/'] + rest;
      RootedKeepsParts("/" + rest, empty, rest, parts);
    } else if parts == [] {
      DotHasNoParts(".");
    } else {
      RelativeKeepsParts(Join(parts, '/'), parts);
    }
  }

  lemma CleanIsIdempotent(path: string)
    ensures Clean(Clean(path)) == Clean(path)
  {
    CleanKeepsParts(path);
  }

  /** Joining a relative path to another continues from the elements of the first. */
  lemma JoinPathsParts(a: string, b: string)
    requires b != "" && !IsAbs(b)
    ensures IsAbs(JoinPaths(a, b)) == IsAbs(a)
    ensures Parts(JoinPaths(a, b)) == Resolve(IsAbs(a), Parts(a), Split(b, '/'))
  {
    if a == "" {
      CleanKeepsParts(b);
      ResolveEmpty(false, []);
    } else {
      assert a + "/" + b == a + ['/'] + b;
      CleanKeepsParts(a + "/" + b);
      SplitAppend(a, '/', b);
      ResolveAppend(IsAbs(a), [], Split(a, '/'), Split(b, '/'));
    }
  }

  datatype Relative = Relative(clean: string) | Rejected

  /** What both checks refuse: the directory itself and anything that starts by leaving it. */
  predicate Escapes(clean: string) {
    clean == "." || clean == ".." || HasPrefix(clean, "../")
  }

  /** environmentRestoreWorkspaceRelativePath. */
  function WorkspaceRelativePath(path: string): Relative {
    var raw := TrimSpace(path);
    if raw == "" || IsAbs(raw) then Rejected
    else if Escapes(Clean(raw)) then Rejected
    else Relative(Clean(raw))
  }

  /** restoreWorkspacePath, which trims its argument once more. */
  function RestoreWorkspacePath(workspace: string, value: string): string {
    var v := TrimSpace(value);
    if v == "" || IsAbs(v) then v else JoinPaths(workspace, v)
  }

  function CommonElements(a: seq<string>, b: seq<string>): (n: nat)
    ensures n <= |a| && n <= |b| && a[..n] == b[..n]
    ensures n < |a| && n < |b| ==> a[n] != b[n]
  {
    if a == [] || b == [] || a[0] != b[0] then 0
    else
      var n := 1 + CommonElements(a[1..], b[1..]);
      assert a[..n] == [a[0]] + a[1..][..n - 1];
      assert b[..n] == [b[0]] + b[1..][..n - 1];
      n
  }

  /** Up from the base to the deepest common directory, then down to the target. */
  function UpAndDown(base: seq<string>, target: seq<string>): seq<string> {
    var n := CommonElements(base, target);
    seq(|base| - n, _ => "..") + target[n..]
  }

  datatype Relation = Related(rel: string) | Unrelated

  /** filepath.Rel, which has no answer where it would have to leave an unresolved "..". */
  function Rel(base: string, target: string): Relation {
    var b, t := Clean(base), Clean(target);
    if b == t then Related(".")
    else if IsAbs(b) != IsAbs(t) then Unrelated
    else
      RelOfElements(Parts(b), if t == "." then ["."] else Parts(t))
  }

  function RelOfElements(base: seq<string>, target: seq<string>): Relation {
    var n := CommonElements(base, target);
    if n < |base| && base[n] == ".." then Unrelated else Related(Join(UpAndDown(base, target), '/'))
  }

  predicate StaysInside(rel: Relation) {
    rel.Related? && !Escapes(rel.rel)
  }

  /** environmentRestoreGeneratedFileTargetOK. */
  predicate GeneratedFileTargetOK(path: string, workspace: string) {
    var raw := TrimSpace(path);
    if raw == "" || IsAbs(raw) then false
    else if Escapes(Clean(raw)) then false
    else
      StaysInside(Rel(workspace, RestoreWorkspacePath(workspace, Clean(raw))))
  }

  /** The target lies strictly below the workspace, element by element. */
  predicate Below(workspace: string, target: string) {
    var w, t := Parts(workspace), Parts(target);
    IsAbs(workspace) == IsAbs(target) && w < t && t[|w|] != ".."
  }

  lemma {:induction false} EscapesShowsInTheFirstElement(parts: seq<string>)
    requires parts != [] && '/' !in parts[0] && parts[0] != "" && (parts[0] == "." ==> |parts| > 1)
    ensures Escapes(Join(parts, '/')) <==> parts[0] == ".."
  {
    var first, all := parts[0], Join(parts, '/');
    if |parts| == 1 {
      assert !HasPrefix(all, "../") by {
        assert '/' !in all;
        assert "../"[2] == '/';
      }
    } else {
      assert all == first + ['/'] + Join(parts[1..], '/');
      assert forall i :: 0 <= i < |first| ==> all[i] == first[i] && first[i] != '/';
      assert all[|first|] == '/';
      if HasPrefix(all, "../") {
        assert all[2] == '/' && all[0] == '.' && all[1] == '.';
        assert |first| == 2;
        assert first == [first[0], first[1]];
      }
      if first == ".." {
        assert all[..3] == "../";
      }
    }
  }

  /**
   * What the first check accepts: relative paths that still name something inside after every ".." is
   * resolved. It returns the cleaned path, which names the same elements.
   */
  lemma AcceptedPathsStayInside(path: string)
    ensures var raw := TrimSpace(path);
      WorkspaceRelativePath(path).Relative? <==> (!IsAbs(raw) && Parts(raw) != [] && ".." !in Parts(raw))
    ensures WorkspaceRelativePath(path).Relative? ==>
      var clean := WorkspaceRelativePath(path).clean;
      !IsAbs(clean) && Parts(clean) == Parts(TrimSpace(path)) == Split(clean, '/') && clean != "" && Clean(clean) == clean
  {
    var raw := TrimSpace(path);
    if raw == "" {
      ResolveEmpty(false, []);
    } else if !IsAbs(raw) {
      PartsNormal(raw);
      CleanKeepsParts(raw);
      var parts := Parts(raw);
      if parts != [] {
        JoinedNames(parts);
        EscapesShowsInTheFirstElement(parts);
      }
    }
  }

  lemma ElementsFindWhatIsBelow(base: seq<string>, target: seq<string>)
    requires base != target && forall i | 0 <= i < |target| :: '/' !in target[i] && target[i] != "" && target[i] != "."
    ensures StaysInside(RelOfElements(base, target)) <==> (base < target && target[|base|] != "..")
  {
    var n, steps := CommonElements(base, target), UpAndDown(base, target);
    if n < |base| {
      assert steps[0] == "..";
    } else {
      assert base[..n] == base;
      assert target[..|target|] == target;
      assert steps == target[n..];
    }
    EscapesShowsInTheFirstElement(steps);
  }

  lemma NothingReachesTheWorkingDirectory(base: seq<string>)
    requires base != [] && base[0] != "."
    ensures !StaysInside(RelOfElements(base, ["."]))
  {
    var steps := UpAndDown(base, ["."]);
    assert steps[0] == "..";
    EscapesShowsInTheFirstElement(steps);
  }

  /** Cleaned paths are equal exactly if they agree on being absolute and on their elements. */
  lemma CleanedPathsAreTheirElements(p: string, q: string)
    ensures Clean(p) == Clean(q) <==> (IsAbs(p) == IsAbs(q) && Parts(p) == Parts(q))
    ensures Clean(p) == "." <==> (!IsAbs(p) && Parts(p) == [])
  {
    CleanKeepsParts(p);
    CleanKeepsParts(q);
    PartsNormal(p);
    if !IsAbs(p) && Parts(p) != [] {
      JoinedNames(Parts(p));
      EscapesShowsInTheFirstElement(Parts(p));
      assert Split(".", '/') == ["."];
    }
  }

  /** Comparing paths with filepath.Rel finds exactly the targets strictly below the workspace. */
  lemma RelFindsWhatIsBelow(workspace: string, target: string)
    ensures StaysInside(Rel(workspace, target)) <==> Below(workspace, target)
  {
    CleanKeepsParts(workspace);
    CleanKeepsParts(target);
    PartsNormal(workspace);
    PartsNormal(target);
    CleanedPathsAreTheirElements(target, workspace);
    if Clean(workspace) != Clean(target) && IsAbs(workspace) == IsAbs(target) {
      if Clean(target) == "." {
        NothingReachesTheWorkingDirectory(Parts(workspace));
      } else {
        ElementsFindWhatIsBelow(Parts(workspace), Parts(target));
      }
    }
  }

  /** The second check accepts what the first accepts and what, trimmed again, still lands below the workspace. */
  lemma SecondCheckIsTheFirstAndBelow(path: string, workspace: string)
    ensures GeneratedFileTargetOK(path, workspace) <==>
      (var first := WorkspaceRelativePath(path);
       first.Relative? && Below(workspace, RestoreWorkspacePath(workspace, first.clean)))
  {
    RelFindsWhatIsBelow(workspace, RestoreWorkspacePath(workspace, Clean(TrimSpace(path))));
  }

  /** Where cleaning leaves no white space at the ends, the two checks agree and the target is the path below the workspace. */
  lemma ChecksAgreeOnTrimmedPaths(path: string, workspace: string)
    requires Trimmed(Clean(TrimSpace(path)))
    ensures GeneratedFileTargetOK(path, workspace) <==> WorkspaceRelativePath(path).Relative?
    ensures WorkspaceRelativePath(path).Relative? ==>
      var target := RestoreWorkspacePath(workspace, WorkspaceRelativePath(path).clean);
      IsAbs(target) == IsAbs(workspace) && Parts(target) == Parts(workspace) + Parts(TrimSpace(path))
  {
    SecondCheckIsTheFirstAndBelow(path, workspace);
    AcceptedPathsStayInside(path);
    if WorkspaceRelativePath(path).Relative? {
      var clean := WorkspaceRelativePath(path).clean;
      var parts := Parts(clean);
      PartsNormal(workspace);
      PartsNormal(clean);
      JoinPathsParts(workspace, clean);
      NamesExtend(IsAbs(workspace), Parts(workspace), parts);
      ResolveKeeps(IsAbs(workspace), Parts(workspace), parts);
      assert (Parts(workspace) + parts)[|Parts(workspace)|] == parts[0];
    }
  }

  lemma NamesExtend(rooted: bool, stack: seq<string>, names: seq<string>)
    requires Normal(rooted, stack) && Normal(false, names) && ".." !in names
    ensures Normal(rooted, stack + names)
  {
  }

  /**
   * Elsewhere they can differ. The writer accepts "./ /b" and cleans it to " /b", a name in a directory called
   * " "; the other check trims that once more, to the absolute "/b", and refuses it.
   */
  lemma ChecksCanDiffer(blanks: nat, name: string, workspace: string)
    requires blanks > 0 && ProperName(name) && Trimmed(name)
    requires IsAbs(workspace) && Parts(workspace) != []
    ensures var inside := Spaces(blanks) + ['/'] + name; var path := "." + ['/'] + inside;
      WorkspaceRelativePath(path) == Relative(inside) && !GeneratedFileTargetOK(path, workspace)
  {
    var inside := Spaces(blanks) + ['/'] + name;
    assert Spaces(blanks)[0] == ' ';
    assert ProperName(Spaces(blanks));
    BlankDirectory(".", Spaces(blanks), name);
    LandsOutside(inside, blanks, name, workspace);
    SecondCheckIsTheFirstAndBelow("." + ['/'] + inside, workspace);
  }

  predicate ProperName(name: string) {
    name != "" && name != "." && name != ".." && '/' !in name
  }

  lemma BlankDirectory(dot: string, blank: string, name: string)
    requires dot == "." && ProperName(blank) && ProperName(name) && !IsSpace(name[|name| - 1])
    ensures WorkspaceRelativePath(dot + ['/'] + (blank + ['/'] + name)) == Relative(blank + ['/'] + name)
  {
    var path := dot + ['/'] + (blank + ['/'] + name);
    assert path[0] == '.' && path[|path| - 1] == name[|name| - 1];
    assert Trimmed(path);
    SplitOfThree(dot, blank, name);
    SkipDot(dot, [blank, name]);
    TwoNames(blank, name);
    AcceptedPathsStayInside(path);
    CleanedPathsAreTheirElements(path, dot);
  }

  lemma SplitOfThree(first: string, second: string, third: string)
    requires '/' !in first && '/' !in second && '/' !in third
    ensures Split(first + ['/'] + (second + ['/'] + third), '/') == [first] + [second, third]
  {
    SplitHead(first, '/', second + ['/'] + third);
    SplitHead(second, '/', third);
    SplitJoin([third], '/');
  }

  lemma SkipDot(dot: string, rest: seq<string>)
    requires dot == "."
    ensures Resolve(false, [], [dot] + rest) == Resolve(false, [], rest)
  {
    assert ([dot] + rest)[1..] == rest;
  }

  lemma TwoNames(first: string, second: string)
    requires ProperName(first) && ProperName(second)
    ensures Resolve(false, [], [first, second]) == [first, second]
    ensures Join([first, second], '/') == first + ['/'] + second
  {
    assert [] + [first, second] == [first, second];
    ResolveKeeps(false, [], [first, second]);
  }

  lemma LandsOutside(inside: string, blanks: nat, name: string, workspace: string)
    requires inside == Spaces(blanks) + ['/'] + name
    requires ProperName(name) && Trimmed(name) && IsAbs(workspace) && Parts(workspace) != []
    ensures !Below(workspace, RestoreWorkspacePath(workspace, inside))
  {
    var outside := ['/'] + name;
    assert outside[|outside| - 1] == name[|name| - 1] && outside[0] == '/';
    assert inside == Spaces(blanks) + outside;
    TrimIndented(blanks, outside);
    assert RestoreWorkspacePath(workspace, inside) == outside;
    OneName(outside, name);
  }

  lemma OneName(path: string, name: string)
    requires ProperName(name) && path == ['/'] + name
    ensures Parts(path) == [name]
  {
    SplitJoin([name], '/');
    var empty := path[..0];
    assert path == empty + ['/'] + name;
    SplitHead(empty, '/', name);
    ResolveAppend(true, [], [empty], [name]);
    ResolveEmpty(true, []);
    ResolveKeeps(true, [], [name]);
    assert [] + [name] == [name];
  }

  // ----- Cleaning twice -----

  /** The characters of the elements, with one separator for each. */
  function Size(elements: seq<string>): nat
    decreases |elements|
  {
    if elements == [] then 0 else Size(elements[..|elements| - 1]) + |elements[|elements| - 1]| + 1
  }

  lemma {:induction false} SizeSplitsOff(first: string, rest: seq<string>)
    ensures Size([first] + rest) == |first| + 1 + Size(rest)
    decreases |rest|
  {
    if rest == [] {
      assert ([first] + rest)[..0] == [];
    } else {
      assert ([first] + rest)[..|rest|] == [first] + rest[..|rest| - 1];
      SizeSplitsOff(first, rest[..|rest| - 1]);
    }
  }

  lemma {:induction false} SizeOfSplit(s: string, sep: char)
    ensures Size(Split(s, sep)) == |s| + 1
    decreases |s|
  {
    var i := IndexOf(s, sep);
    if i == |s| {
      SizeSplitsOff(s, []);
      assert [s] + [] == [s] && s[..i] == s;
    } else {
      SizeOfSplit(s[i + 1..], sep);
      SizeSplitsOff(s[..i], Split(s[i + 1..], sep));
    }
  }

  lemma {:induction false} SizeOfJoin(parts: seq<string>, sep: char)
    requires parts != []
    ensures |Join(parts, sep)| == Size(parts) - 1
  {
    assert parts == [parts[0]] + parts[1..];
    SizeSplitsOff(parts[0], parts[1..]);
    if |parts| > 1 {
      SizeOfJoin(parts[1..], sep);
    }
  }

  lemma PushAddsAtMost(rooted: bool, stack: seq<string>, element: string)
    ensures Size(Push(rooted, stack, element)) <= Size(stack) + |element| + 1
  {
    assert (stack + [element])[..|stack|] == stack;
  }

  lemma {:induction false} ResolveAddsAtMost(rooted: bool, stack: seq<string>, elements: seq<string>)
    ensures Size(Resolve(rooted, stack, elements)) <= Size(stack) + Size(elements)
    decreases |elements|
  {
    if elements != [] {
      PushAddsAtMost(rooted, stack, elements[0]);
      ResolveAddsAtMost(rooted, Push(rooted, stack, elements[0]), elements[1..]);
      assert elements == [elements[0]] + elements[1..];
      SizeSplitsOff(elements[0], elements[1..]);
    }
  }

  /** Cleaning never makes a path longer. */
  lemma CleanIsNotLonger(path: string)
    requires path != ""
    ensures |Clean(path)| <= |path|
  {
    var rooted, elements, parts := IsAbs(path), Split(path, '/'), Parts(path);
    SizeOfSplit(path, '/');
    if rooted {
      assert path == [] + ['/'] + path[1..];
      SplitHead([], '/', path[1..]);
      SizeOfSplit(path[1..], '/');
      ResolveAppend(true, [], [""], Split(path[1..], '/'));
      ResolveEmpty(true, []);
      ResolveAddsAtMost(true, [], Split(path[1..], '/'));
    } else {
      ResolveAddsAtMost(false, [], elements);
    }
    if parts != [] {
      SizeOfJoin(parts, '/');
    }
  }

  /** A trimmed and cleaned path. */
  function Cleaned(path: string): string {
    Clean(TrimSpace(path))
  }

  /** Trimming and cleaning once more changes nothing exactly if the cleaned path has no white space at its ends. */
  lemma CleanedAgainExactly(path: string)
    ensures Cleaned(Cleaned(path)) == Cleaned(path) <==> Trimmed(Cleaned(path))
  {
    var once := Cleaned(path);
    CleanIsIdempotent(TrimSpace(path));
    if !Trimmed(once) {
      var shorter := TrimSpace(once);
      assert |shorter| < |once|;
      if shorter == "" {
        BlankIsNotDot(once);
      } else {
        CleanIsNotLonger(shorter);
      }
    }
  }

  lemma BlankIsNotDot(s: string)
    requires TrimSpace(s) == ""
    ensures Clean("") != s
  {
    assert Trimmed(".");
    CleanedPathsAreTheirElements("", ".");
    ResolveEmpty(false, []);
    assert Split("", '/') == [""];
    assert Clean("") == ".";
  }

  /** A workspace such as "./ a", whose cleaned form " a" is cleaned to another name, "a". */
  lemma NamedWithBlanks(blanks: nat, name: string)
    requires blanks > 0 && ProperName(name) && Trimmed(name)
    ensures var inside := Spaces(blanks) + name; Cleaned("." + ['/'] + inside) == inside && !Trimmed(inside)
  {
    var inside := Spaces(blanks) + name;
    assert inside[0] == ' ' && inside[|inside| - 1] == name[|name| - 1];
    assert ProperName(inside);
    DotThenName(".", inside);
  }

  lemma DotThenName(dot: string, inside: string)
    requires dot == "." && ProperName(inside) && !IsSpace(inside[|inside| - 1])
    ensures Cleaned(dot + ['/'] + inside) == inside
  {
    var path := dot + ['/'] + inside;
    assert path[0] == '.' && path[|path| - 1] == inside[|inside| - 1];
    assert Trimmed(path);
    SplitHead(dot, '/', inside);
    SplitJoin([inside], '/');
    SkipDot(dot, [inside]);
    ResolveKeeps(false, [], [inside]);
    assert [] + [inside] == [inside];
  }

  /** A separator at the end makes no difference. */
  lemma TrailingSlash(path: string, empty: string)
    requires path != "" && empty == ""
    ensures IsAbs(path + ['/']) == IsAbs(path) && Clean(path + ['/']) == Clean(path)
  {
    assert path + ['/'] == path + ['/'] + empty;
    SplitAppend(path, '/', empty);
    assert Split(empty, '/') == [empty];
    ResolveAppend(IsAbs(path), [], Split(path, '/'), [empty]);
    ResolveEmpty(IsAbs(path), Parts(path));
  }

  lemma OneNameIsClean(path: string, name: string)
    requires ProperName(name) && path == ['/'] + name
    ensures Clean(path) == path
  {
    OneName(path, name);
  }

  lemma TwoNamesBelowRoot(path: string, first: string, second: string)
    requires ProperName(first) && ProperName(second) && path == ['/'] + first + ['/'] + second
    ensures IsAbs(path) && Parts(path) == [first, second]
  {
    var dir := ['/'] + first;
    OneName(dir, first);
    SplitAppend(dir, '/', second);
    SplitJoin([second], '/');
    ResolveAppend(true, [], Split(dir, '/'), [second]);
    ResolveKeeps(true, [first], [second]);
    assert [first] + [second] == [first, second];
    assert path[..1] == "/";
  }

  lemma TwoNamesAreClean(path: string, first: string, second: string)
    requires ProperName(first) && ProperName(second) && path == ['/'] + first + ['/'] + second
    ensures Clean(path) == path
  {
    TwoNamesBelowRoot(path, first, second);
    assert Join([first, second], '/') == first + ['/'] + second;
    assert path == "/" + (first + ['/'] + second);
  }

  lemma PaddedIsProper(name: string, blanks: nat)
    requires blanks > 0 && '/' !in name
    ensures var padded := name + Spaces(blanks); ProperName(padded) && padded[|padded| - 1] == ' '
  {
    var padded := name + Spaces(blanks);
    assert padded[|padded| - 1] == ' ';
    assert forall i | 0 <= i < |padded| :: padded[i] != '/';
  }

  /** A directory named with a separator, and blanks, at the end. */
  lemma NamedWithSlash(dir: string, more: nat)
    requires dir != "" && dir[0] == '/'
    ensures Cleaned(dir + ['/'] + Spaces(more)) == Clean(dir)
  {
    var slashed := dir + ['/'];
    assert slashed[0] == '/' && slashed[|slashed| - 1] == '/' && Trimmed(slashed);
    TrimTrailing(slashed, more);
    TrailingSlash(dir, "");
  }

  /** An absolute workspace such as "/x / ", as cleaning "/x / /" gives it, whose own cleaned form is "/x ". */
  lemma AbsoluteWithBlanks(name: string, blanks: nat, more: nat)
    requires ProperName(name) && blanks > 0 && more > 0
    ensures var dir := ['/'] + (name + Spaces(blanks));
      var workspace := dir + ['/'] + Spaces(more);
      Cleaned(workspace + ['/']) == workspace && Cleaned(workspace) == dir && !Trimmed(dir)
  {
    var padded := name + Spaces(blanks);
    var dir := ['/'] + padded;
    var workspace := dir + ['/'] + Spaces(more);
    PaddedIsProper(name, blanks);
    PaddedIsProper("", more);
    assert "" + Spaces(more) == Spaces(more);
    NamedWithSlash(workspace, 0);
    assert workspace + ['/'] + Spaces(0) == workspace + ['/'];
    TwoNamesAreClean(workspace, padded, Spaces(more));
    NamedWithSlash(dir, more);
    OneNameIsClean(dir, padded);
    assert dir[|dir| - 1] == ' ';
  }

  /** A name on its own is clean, and so is what is left of it after a "./". */
  lemma NameIsClean(name: string)
    requires ProperName(name) && Trimmed(name)
    ensures Cleaned(name) == name && Cleaned("." + ['/'] + name) == name
  {
    DotThenName(".", name);
    CleanIsIdempotent(TrimSpace("." + ['/'] + name));
  }

  // ----- What cleaning means -----

  /** Appending one more element to a path. */
  function Then(path: string, element: string): string {
    path + ['/'] + element
  }

  lemma PartsThen(path: string, element: string)
    requires path != "" && '/' !in element
    ensures IsAbs(Then(path, element)) == IsAbs(path)
    ensures Parts(Then(path, element)) == Push(IsAbs(path), Parts(path), element)
  {
    SplitAppend(path, '/', element);
    SplitJoin([element], '/');
    ResolveAppend(IsAbs(path), [], Split(path, '/'), [element]);
    assert [element][1..] == [];
  }

  lemma CleanOfSameParts(a: string, b: string)
    requires IsAbs(a) == IsAbs(b) && Parts(a) == Parts(b)
    ensures Clean(a) == Clean(b)
  {
  }

  /** Cleaning, element by element: a name is kept, "." and empty elements are dropped. */
  lemma NamesAreKept(path: string, name: string, blank: string, dot: string)
    requires path != "" && ProperName(name) && blank == "" && dot == "."
    ensures Parts(Then(path, name)) == Parts(path) + [name]
    ensures Clean(Then(path, dot)) == Clean(path) == Clean(Then(path, blank))
  {
    PartsThen(path, name);
    PartsThen(path, dot);
    PartsThen(path, blank);
    CleanOfSameParts(Then(path, dot), path);
    CleanOfSameParts(Then(path, blank), path);
  }

  /** ".." takes the name before it away; at the root it is dropped, and after others at the start of a relative path it stays. */
  lemma ParentsAreResolved(path: string, name: string, up: string)
    requires path != "" && ProperName(name) && up == ".."
    ensures Clean(Then(Then(path, name), up)) == Clean(path)
    ensures IsAbs(path) && Parts(path) == [] ==> Clean(Then(path, up)) == Clean(path)
    ensures !IsAbs(path) && (forall i | 0 <= i < |Parts(path)| :: Parts(path)[i] == up) ==> Parts(Then(path, up)) == Parts(path) + [up]
  {
    PartsThen(path, name);
    PartsThen(path, up);
    PartsThen(Then(path, name), up);
    assert (Parts(path) + [name])[..|Parts(path)|] == Parts(path);
    CleanOfSameParts(Then(Then(path, name), up), path);
    if IsAbs(path) && Parts(path) == [] {
      CleanOfSameParts(Then(path, up), path);
    }
  }

  /** A cleaned path is its elements, joined, after a "/" if it is absolute; without any it is the directory itself. */
  lemma CleanIsItsElements(path: string)
    ensures Clean(path) == (if IsAbs(path) then "/" else "") + (if Parts(path) == [] then (if IsAbs(path) then "" else ".") else Join(Parts(path), '/'))
    ensures Normal(IsAbs(path), Parts(path))
  {
    PartsNormal(path);
  }

  /** One name alone is its only element, "/" and the empty path have none. */
  lemma FirstElements(name: string, blank: string, root: string)
    requires ProperName(name) && blank == "" && root == "/"
    ensures Parts(name) == [name] && Parts(blank) == [] && Parts(root) == []
    ensures !IsAbs(name) && IsAbs(root) && !IsAbs(blank)
  {
    SplitJoin([name], '/');
    ResolveKeeps(false, [], [name]);
    assert [] + [name] == [name];
    assert name[0] in name;
    ResolveEmpty(false, []);
    assert root == blank + ['/'] + blank;
    SplitHead(blank, '/', blank);
    assert Split(blank, '/') == [blank];
    ResolveAppend(true, [], [blank], [blank]);
    ResolveEmpty(true, []);
  }
}
