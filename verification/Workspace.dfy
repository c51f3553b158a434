/**
 * Replacing and reading one file of a restore workspace. Every call into the operating system is one
 * operation of the class and can fail; the trace records the tree after each operation that may change it.
 */
module Workspace {
  import opened Text
  import opened Paths
  import opened FileTree

  const MAX_TEMP_NAMES := 100
  const COUNTER_LIMIT := 0x1_0000_0000_0000_0000

  datatype Failure =
    | NoFailure
    | BadPath
    | NoWorkspace
    | UnsafeParent
    | NoParent
    | UnsafeTarget
    | NoTempFile
    | TempNamesExhausted
    | NoChmod
    | NoWrite
    | NoFileClose
    | NoRename

  /** The error of a write: what stopped it, and what went wrong while cleaning up. */
  datatype WriteError = WriteError(failure: Failure, removeFailed: bool, closeFailed: bool) {
    predicate OK() {
      failure == NoFailure && !removeFailed && !closeFailed
    }
  }

  datatype Stat = Found(node: Node) | Missing | Unknown

  datatype Opening = Opened | Taken | Refused

  datatype Reading = Bytes(mode: nat, content: string) | NotRegular | Unreadable

  function Decimal(n: nat): string {
    var digit := ['0' + (n % 10) as char];
    if n < 10 then digit else Decimal(n / 10) + digit
  }

  function TempName(base: string, number: nat): string {
    "." + base + ".agent-testbench-" + Decimal(number) + ".tmp"
  }

  /** A temporary file lies beside its target, under a name made from the target's. */
  predicate IsTemp(target: Path, p: Path, number: nat) {
    target != [] && |p| == |target| && p == target[..|p| - 1] + [TempName(target[|p| - 1], number)]
  }

  function TempAt(target: Path, number: nat): Path
    requires target != []
  {
    Parent(target) + [TempName(target[|target| - 1], number)]
  }

  /** The k-th name after the counter. */
  function NumberedTemp(target: Path, counter: nat, k: nat): Path
    requires target != []
  {
    TempAt(target, (counter + k) % COUNTER_LIMIT)
  }

  /** The next hundred numbers after the counter all lead to names that are taken. */
  predicate NamesTaken(tree: Tree, target: Path, counter: nat)
    requires target != []
  {
    forall k: nat | 1 <= k <= MAX_TEMP_NAMES :: NumberedTemp(target, counter, k) in tree
  }

  lemma NextNumber(counter: nat, attempt: nat)
    requires counter < COUNTER_LIMIT && attempt < MAX_TEMP_NAMES
    ensures ((counter + attempt) % COUNTER_LIMIT + 1) % COUNTER_LIMIT == (counter + (attempt + 1)) % COUNTER_LIMIT
  {
  }

  ghost predicate TempOf(target: Path, p: Path) {
    exists n: nat :: IsTemp(target, p, n)
  }

  lemma TempIsNotTheTarget(target: Path, p: Path)
    requires TempOf(target, p)
    ensures p != target && |p| == |target|
  {
    var n: nat :| IsTemp(target, p, n);
    assert p[|p| - 1] == TempName(target[|p| - 1], n);
    assert |TempName(target[|p| - 1], n)| > |target[|p| - 1]|;
  }


  function Perm(mode: nat): nat {
    mode % 0x200
  }

  /** Where a path of the Store points to inside the workspace; nowhere if it is refused. */
  function Target(path: string): Path {
    var r := WorkspaceRelativePath(path);
    if r.Relative? then Split(r.clean, '/') else []
  }

  /**
   * The lexical rules for one workspace name: the directory it opens, how a path is cleaned, where it points to
   * below the workspace, and whether the check of generated files lets it through.
   */
  datatype Rules = Rules(directory: string, clean: string -> string, target: string -> Path, inside: string -> bool) {
    /** The name names no workspace. */
    predicate Blank() {
      directory == "" || directory == "."
    }
  }

  function RulesOf(workspace: string): Rules {
    Rules(Cleaned(workspace), Cleaned, Target, path => GeneratedFileTargetOK(path, workspace))
  }

  /**
   * Using the cleaned name of a workspace opens the same directory exactly if that name has no white space at its
   * ends; paths below it are the same in any case.
   */
  lemma CleanedWorkspaceIsTheSameExactly(workspace: string)
    ensures RulesOf(Cleaned(workspace)).directory == RulesOf(workspace).directory <==> Trimmed(Cleaned(workspace))
    ensures RulesOf(Cleaned(workspace)).target == RulesOf(workspace).target
  {
    CleanedAgainExactly(workspace);
  }

  /** A path points somewhere exactly if the first check accepts it, and then to the elements of its cleaned form. */
  lemma TargetOfAccepted(path: string)
    ensures Target(path) != [] <==> WorkspaceRelativePath(path).Relative?
    ensures Target(path) != [] ==> Target(path) == Parts(TrimSpace(path)) && ".." !in Target(path)
  {
    AcceptedPathsStayInside(path);
  }

  /** The checked way to a path: directories as far as it exists, and no symbolic link at its end. */
  predicate FreeOfLinks(tree: Tree, p: Path) {
    && (forall k | 0 <= k < |p| :: p[..k] in tree ==> tree[p[..k]] == Directory)
    && (p in tree ==> !tree[p].Symlink?)
  }

  /** What reading a file gives when no operation fails. */
  function ReadOf(tree: Tree, rules: Rules, path: string): Reading {
    ReadAt(tree, rules.Blank(), rules.target(path))
  }

  function ReadAt(tree: Tree, blank: bool, target: Path): Reading {
    if blank || target == [] || !IsDirectory(tree, []) || target !in tree then Unreadable
    else match tree[target]
      case File(mode, content) => Bytes(mode, content)
      case Special => NotRegular
      case _ => Unreadable
  }

  /** The condition under which a write can succeed. */
  predicate CanReplace(tree: Tree, rules: Rules, path: string) {
    !rules.Blank() && Writable(tree, rules.target(path))
  }

  /** What is there on the way to the target is a directory, and no link. */
  predicate OnlyDirectoriesAbove(tree: Tree, target: Path) {
    forall k | 0 <= k < |target| :: target[..k] in tree ==> tree[target[..k]] == Directory
  }

  /** What can be read lies below directories only. */
  lemma ReadsNoLink(tree: Tree, rules: Rules, path: string)
    requires WellFormed(tree)
    ensures ReadOf(tree, rules, path).Bytes? ==> rules.target(path) in tree && OnlyDirectoriesAbove(tree, rules.target(path))
  {
    var target := rules.target(path);
    if ReadOf(tree, rules, path).Bytes? {
      forall k | 0 <= k < |target| ensures IsDirectory(tree, target[..k]) {
        AncestorsAreDirectories(tree, target, k);
      }
    }
  }

  /** What a write may add: the target's directories, the target, and a temporary file beside it. */
  ghost predicate OnlyLeftovers(before: Tree, now: Tree, target: Path) {
    forall p | p in now && p !in before && p != target :: (p < target && now[p] == Directory) || TempOf(target, p)
  }

  /** A tree a crash may leave behind: the target is old or completely new, and no other file has changed. */
  ghost predicate CrashSafe(before: Tree, now: Tree, target: Path, node: Node) {
    OldOrNew(before, now, target, node) && OnlyLeftovers(before, now, target)
  }

  /** All trees recorded since then are safe. */
  ghost predicate SafeSince(past: seq<Tree>, trace: seq<Tree>, before: Tree, target: Path, node: Node) {
    past <= trace && forall i | |past| <= i < |trace| :: CrashSafe(before, trace[i], target, node)
  }

  /** All trees recorded since then only have more directories on the way to the target. */
  ghost predicate GrownSince(past: seq<Tree>, trace: seq<Tree>, before: Tree, target: Path) {
    past <= trace && forall i | |past| <= i < |trace| :: Grown(before, trace[i], target)
  }

  /** The tree while a temporary file stands beside the target. */
  ghost predicate WithTemp(before: Tree, now: Tree, target: Path, temp: Path) {
    && TempOf(target, temp) && temp !in before && temp in now && now[temp].File?
    && Grown(before, now - {temp}, target)
  }

  lemma GrownIsSafe(before: Tree, now: Tree, target: Path, node: Node)
    requires Grown(before, now, target)
    ensures CrashSafe(before, now, target, node) && KeptOld(before, now, target)
  {
  }

  lemma WithTempIsSafe(before: Tree, now: Tree, target: Path, temp: Path, node: Node)
    requires WithTemp(before, now, target, temp)
    ensures CrashSafe(before, now, target, node) && KeptOld(before, now, target)
  {
    TempIsNotTheTarget(target, temp);
    assert forall p | p in before :: p in now - {temp};
    assert forall p | p in now && p != temp :: p in now - {temp};
  }

  class Root {
    var tree: Tree
    var counter: nat
    var clock: nat
    const directory: string
    const fails: nat -> bool
    const partial: nat -> nat
    ghost var trace: seq<Tree>

    ghost predicate Valid()
      reads this
    {
      WellFormed(tree) && counter < COUNTER_LIMIT
    }

    /** No operation ever fails. */
    ghost predicate Reliable() {
      forall t :: !fails(t)
    }

    constructor (directory: string, tree: Tree, counter: nat, fails: nat -> bool, partial: nat -> nat)
      requires WellFormed(tree) && counter < COUNTER_LIMIT
      ensures Valid() && this.directory == directory && this.tree == tree && this.fails == fails && trace == []
    {
      this.directory := directory;
      this.tree := tree;
      this.counter := counter;
      this.clock := 0;
      this.fails := fails;
      this.partial := partial;
      this.trace := [];
    }

    /** Whether the next operation fails. */
    method Fault() returns (failed: bool)
      modifies this`clock
      ensures Reliable() ==> !failed
    {
      failed := fails(clock);
      clock := clock + 1;
    }

    method Commit(now: Tree)
      modifies this`tree, this`trace
      ensures tree == now && trace == old(trace) + [now]
    {
      tree := now;
      trace := trace + [now];
    }

    method Lstat(p: Path) returns (stat: Stat)
      modifies this`clock
      ensures stat.Found? ==> p in tree && stat.node == tree[p]
      ensures stat.Missing? ==> p !in tree && forall k | 0 <= k < |p| :: p[..k] in tree ==> tree[p[..k]] == Directory
      ensures Reliable() && (forall k | 0 <= k < |p| :: IsDirectory(tree, p[..k])) ==> !stat.Unknown?
    {
      var failed := Fault();
      if failed || exists k | 0 <= k < |p| :: p[..k] in tree && tree[p[..k]] != Directory {
        return Unknown;
      }
      return if p in tree then Found(tree[p]) else Missing;
    }

    /**
     * openEnvironmentRestoreWorkspaceRoot, told whether the workspace name is blank; the directories above the
     * workspace are not part of the tree.
     */
    method OpenRoot(blank: bool, create: bool) returns (ok: bool)
      requires Valid()
      modifies this`tree, this`trace, this`clock
      ensures Valid()
      ensures tree == old(tree) || (create && [] !in old(tree) && tree == old(tree)[[] := Directory])
      ensures trace == old(trace) || (tree != old(tree) && trace == old(trace) + [tree])
      ensures ok ==> !blank && IsDirectory(tree, [])
      ensures blank ==> tree == old(tree)
      ensures Reliable() && !blank && CanOpen(old(tree), create) ==> ok
    {
      if blank {
        return false;
      }
      if create {
        var failed := Fault();
        if failed || ([] in tree && tree[[]] != Directory) {
          return false;
        }
        if [] !in tree {
          Commit(tree[[] := Directory]);
        }
      }
      var stat := Lstat([]);
      if stat != Found(Directory) {
        return false;
      }
      var failed := Fault();
      return !failed;
    }

    /** rejectEnvironmentRestoreWorkspaceSymlinks: looks at every element on the way, until one is missing. */
    method RejectSymlinks(p: Path) returns (ok: bool)
      requires Valid() && IsDirectory(tree, [])
      modifies this`clock
      ensures ok ==> FreeOfLinks(tree, p)
      ensures Reliable() && FreeOfLinks(tree, p) ==> ok
    {
      assert p[..|p|] == p;
      for k := 1 to |p| + 1
        invariant forall j | 0 <= j < k - 1 :: IsDirectory(tree, p[..j])
        invariant p[..k - 1] in tree && !tree[p[..k - 1]].Symlink?
      {
        assert forall j | 0 <= j < k :: p[..k][..j] == p[..j];
        var stat := Lstat(p[..k]);
        match stat {
          case Missing =>
            NothingBelow(tree, p, k);
            assert p[..k][..k - 1] == p[..k - 1];
            return true;
          case Unknown =>
            return false;
          case Found(node) =>
            AncestorsAreDirectories(tree, p[..k], k - 1);
            if node.Symlink? {
              return false;
            }
        }
      }
      return true;
    }

    /** MkdirAll on the target's directory. */
    method MkdirAll(target: Path) returns (ok: bool)
      requires Valid() && target != [] && IsDirectory(tree, [])
      modifies this`tree, this`trace, this`clock
      ensures Valid() && Grown(old(tree), tree, target) && GrownSince(old(trace), trace, old(tree), target)
      ensures ok ==> forall k | 0 <= k < |target| :: IsDirectory(tree, target[..k])
      ensures Reliable() && (forall k | 0 <= k < |target| :: target[..k] in tree ==> tree[target[..k]] == Directory) ==> ok
    {
      for k := 1 to |target|
        invariant Valid() && Grown(old(tree), tree, target) && GrownSince(old(trace), trace, old(tree), target)
        invariant forall j | 0 <= j < k :: IsDirectory(tree, target[..j])
      {
        var failed := Fault();
        if failed || (target[..k] in tree && tree[target[..k]] != Directory) {
          return false;
        }
        if target[..k] !in tree {
          OneMoreDirectory(old(tree), tree, target, k);
          Commit(tree[target[..k] := Directory]);
        }
      }
      return true;
    }

    /** createEnvironmentRestoreWorkspaceTempFile: exclusive creation under numbered names. */
    method CreateTemp(target: Path) returns (failure: Failure, temp: Path)
      requires Valid() && target != [] && IsDirectory(tree, Parent(target))
      modifies this`tree, this`trace, this`clock, this`counter
      ensures Valid()
      ensures failure == NoFailure ==> TempOf(target, temp) && temp !in old(tree)
      ensures failure == NoFailure ==> tree == old(tree)[temp := File(0x180, "")] && trace == old(trace) + [tree]
      ensures failure != NoFailure ==> tree == old(tree) && trace == old(trace)
      ensures failure in {NoFailure, NoTempFile, TempNamesExhausted} && (Reliable() ==> failure != NoTempFile)
      ensures failure == TempNamesExhausted ==> NamesTaken(old(tree), target, old(counter))
    {
      var parent := Parent(target);
      for attempt := 0 to MAX_TEMP_NAMES
        invariant Valid() && tree == old(tree) && trace == old(trace)
        invariant counter == (old(counter) + attempt) % COUNTER_LIMIT
        invariant forall k: nat | 1 <= k <= attempt :: NumberedTemp(target, old(counter), k) in tree
      {
        NextNumber(old(counter), attempt);
        counter := (counter + 1) % COUNTER_LIMIT;
        temp := TempAt(target, counter);
        assert temp == NumberedTemp(target, old(counter), attempt + 1);
        assert IsTemp(target, temp, counter);
        var failed := Fault();
        if temp !in tree {
          if failed {
            return NoTempFile, temp;
          }
          assert Parent(temp) == parent;
          NewFileIsWellFormed(tree, temp, File(0x180, ""));
          Commit(tree[temp := File(0x180, "")]);
          return NoFailure, temp;
        } else if failed {
          return NoTempFile, temp;
        }
      }
      return TempNamesExhausted, [];
    }

    /** Chmod, Write and Close of the temporary file; a write that fails may have written part of the content. */
    method FillTemp(ghost before: Tree, target: Path, temp: Path, content: string, mode: nat) returns (failure: Failure)
      requires Valid() && WithTemp(before, tree, target, temp)
      modifies this`tree, this`trace, this`clock
      ensures Valid() && WithTemp(before, tree, target, temp)
      ensures SafeSince(old(trace), trace, before, target, File(Perm(mode), content))
      ensures tree - {temp} == old(tree) - {temp}
      ensures failure == NoFailure ==> tree[temp] == File(Perm(mode), content)
      ensures failure != NoRename && failure != TempNamesExhausted && (Reliable() ==> failure == NoFailure)
    {
      var failed := Fault();
      if failed {
        return NoChmod;
      }
      SetTemp(before, target, temp, content, mode, tree[temp].(mode := Perm(mode)));
      failed := Fault();
      var written := if partial(clock) < |content| then partial(clock) else |content|;
      SetTemp(before, target, temp, content, mode, File(Perm(mode), content[..written]));
      if failed {
        return NoWrite;
      }
      SetTemp(before, target, temp, content, mode, File(Perm(mode), content));
      failed := Fault();
      return if failed then NoFileClose else NoFailure;
    }

    method SetTemp(ghost before: Tree, ghost target: Path, temp: Path, ghost content: string, ghost mode: nat, node: Node)
      requires Valid() && WithTemp(before, tree, target, temp) && node.File?
      modifies this`tree, this`trace
      ensures Valid() && WithTemp(before, tree, target, temp)
      ensures SafeSince(old(trace), trace, before, target, File(Perm(mode), content))
      ensures tree == old(tree)[temp := node]
    {
      assert tree[temp := node] - {temp} == tree - {temp};
      Commit(tree[temp := node]);
      WithTempIsSafe(before, tree, target, temp, File(Perm(mode), content));
      SameFileIsWellFormed(old(tree), temp, node);
    }

    /** Checks the way to the target and makes its directories. */
    method PrepareParent(target: Path) returns (failure: Failure)
      requires Valid() && target != [] && IsDirectory(tree, [])
      modifies this`tree, this`trace, this`clock
      ensures Valid() && Grown(old(tree), tree, target) && GrownSince(old(trace), trace, old(tree), target)
      ensures failure == NoFailure ==> FreeOfLinks(tree, target) && forall k | 0 <= k < |target| :: IsDirectory(tree, target[..k])
      ensures Reliable() && Writable(old(tree), target) ==> failure == NoFailure
      ensures failure != TempNamesExhausted
    {
      var parent := Parent(target);
      assert forall k | 0 <= k < |parent| :: parent[..k] == target[..k];
      assert parent == target[..|parent|];
      var free := RejectSymlinks(parent);
      if !free {
        return UnsafeParent;
      }
      var made := MkdirAll(target);
      if !made {
        return NoParent;
      }
      free := RejectSymlinks(target);
      return if free then NoFailure else UnsafeTarget;
    }

    /** The body of the write once the workspace is open. */
    method ReplaceInRoot(target: Path, content: string, mode: nat) returns (failure: Failure, removeFailed: bool)
      requires Valid() && target != [] && IsDirectory(tree, [])
      modifies this`tree, this`trace, this`clock, this`counter
      ensures Valid() && SafeSince(old(trace), trace, old(tree), target, File(Perm(mode), content))
      ensures failure == NoFailure ==> !removeFailed && Writable(old(tree), target)
      ensures failure == NoFailure ==> tree == Replaced(old(tree), target, File(Perm(mode), content))
      ensures failure != NoFailure ==> KeptOld(old(tree), tree, target) && OnlyLeftovers(old(tree), tree, target)
      ensures failure != NoFailure && !removeFailed ==> Grown(old(tree), tree, target)
      ensures Reliable() && Writable(old(tree), target) ==> failure == NoFailure || failure == TempNamesExhausted
      ensures failure == TempNamesExhausted ==> NamesTaken(old(tree), target, old(counter))
      ensures Reliable() ==> !removeFailed
    {
      ghost var before, past := tree, trace;
      ghost var node := File(Perm(mode), content);
      removeFailed := false;
      failure := PrepareParent(target);
      GrownSinceIsSafe(past, trace, before, target, node);
      GrownIsSafe(before, tree, target, node);
      if failure != NoFailure {
        return;
      }
      ghost var grown, counter0 := tree, counter;
      assert Parent(target) == target[..|target| - 1];
      var temp;
      failure, temp := CreateTemp(target);
      if failure != NoFailure {
        if failure == TempNamesExhausted {
          TakenBefore(before, grown, target, counter0);
        }
        return;
      }
      TempStands(before, grown, target, temp, File(0x180, ""));
      assert tree - {temp} == grown;
      WithTempIsSafe(before, tree, target, temp, node);
      failure, removeFailed := FillAndRename(before, target, temp, content, mode);
    }

    /** The part of the write that has a temporary file to remove again. */
    method FillAndRename(ghost before: Tree, target: Path, temp: Path, content: string, mode: nat)
      returns (failure: Failure, removeFailed: bool)
      requires Valid() && WellFormed(before) && WithTemp(before, tree, target, temp) && target != []
      requires FreeOfLinks(tree - {temp}, target) && forall k | 0 <= k < |target| :: IsDirectory(tree - {temp}, target[..k])
      modifies this`tree, this`trace, this`clock
      ensures Valid() && SafeSince(old(trace), trace, before, target, File(Perm(mode), content))
      ensures failure == NoFailure ==> !removeFailed && Writable(before, target)
      ensures failure == NoFailure ==> tree == Replaced(before, target, File(Perm(mode), content))
      ensures failure != NoFailure ==> KeptOld(before, tree, target) && OnlyLeftovers(before, tree, target)
      ensures failure != NoFailure && !removeFailed ==> Grown(before, tree, target)
      ensures Reliable() ==> !removeFailed && (Writable(before, target) ==> failure == NoFailure)
      ensures failure != TempNamesExhausted
    {
      ghost var node := File(Perm(mode), content);
      ghost var grown, past := tree - {temp}, trace;
      removeFailed := false;
      failure := FillTemp(before, target, temp, content, mode);
      if failure == NoFailure {
        failure := Rename(before, grown, target, temp, node);
      }
      if failure != NoFailure {
        removeFailed := Remove(before, target, temp, node);
      }
    }

    method Rename(ghost before: Tree, ghost grown: Tree, target: Path, temp: Path, ghost node: Node) returns (failure: Failure)
      requires Valid() && WellFormed(before) && WithTemp(before, tree, target, temp) && tree[temp] == node && target != []
      requires grown == tree - {temp} && FreeOfLinks(grown, target) && forall k | 0 <= k < |target| :: IsDirectory(grown, target[..k])
      modifies this`tree, this`trace, this`clock
      ensures Valid() && (failure == NoFailure || failure == NoRename)
      ensures SafeSince(old(trace), trace, before, target, node)
      ensures failure == NoFailure ==> Writable(before, target) && tree == Replaced(before, target, node)
      ensures failure != NoFailure ==> tree == old(tree)
      ensures Reliable() && Writable(before, target) ==> failure == NoFailure
    {
      TempIsNotTheTarget(target, temp);
      assert target in tree ==> target in grown;
      assert target in grown ==> target in before;
      var failed := Fault();
      if failed || (target in tree && tree[target] == Directory) {
        return NoRename;
      }
      Renamed(before, tree, target, temp, node);
      Commit((tree - {temp})[target := tree[temp]]);
      return NoFailure;
    }

    method Remove(ghost before: Tree, ghost target: Path, temp: Path, ghost node: Node) returns (failed: bool)
      requires Valid() && WithTemp(before, tree, target, temp)
      modifies this`tree, this`trace, this`clock
      ensures Valid() && SafeSince(old(trace), trace, before, target, node)
      ensures KeptOld(before, tree, target) && OnlyLeftovers(before, tree, target)
      ensures !failed ==> Grown(before, tree, target)
      ensures Reliable() ==> !failed
    {
      WithTempIsSafe(before, tree, target, temp, node);
      failed := Fault();
      if !failed {
        GrownIsSafe(before, tree - {temp}, target, node);
        WithoutFileIsWellFormed(tree, temp);
        Commit(tree - {temp});
      }
    }

    /**
     * writeEnvironmentRestoreWorkspaceFile. Whatever fails, and wherever it is cut off, the target holds its old
     * content or all of the new one and no other file has changed. Only an error of closing the workspace can be
     * reported with the new content in place. An undisturbed write of a file that can be replaced succeeds, unless
     * the next hundred names for its temporary file are all taken.
     */
    method WriteFile(rules: Rules, path: string, content: string, mode: nat) returns (error: WriteError)
      requires Valid() && rules.directory == directory
      modifies this`tree, this`trace, this`clock, this`counter
      ensures Valid()
      ensures SafeSince(old(trace), trace, old(tree), rules.target(path), File(Perm(mode), content))
      ensures error.failure == NoFailure ==> CanReplace(old(tree), rules, path) && !error.removeFailed
      ensures error.failure == NoFailure ==> tree == Replaced(old(tree), rules.target(path), File(Perm(mode), content))
      ensures error.failure != NoFailure ==> KeptOld(old(tree), tree, rules.target(path))
      ensures error.failure != NoFailure ==> OnlyLeftovers(old(tree), tree, rules.target(path))
      ensures error.failure != NoFailure && !error.removeFailed ==> Grown(old(tree), tree, rules.target(path))
      ensures error.failure == NoFailure ==> OnlyDirectoriesAbove(old(tree), rules.target(path))
      ensures error.failure == NoFailure && rules.target(path) in old(tree) ==>
        old(tree)[rules.target(path)] != Symlink && old(tree)[rules.target(path)] != Directory
      ensures rules.target(path) == [] || rules.Blank() ==> !error.OK() && tree == old(tree)
      ensures Reliable() && CanReplace(old(tree), rules, path) ==> error.OK() || error.failure == TempNamesExhausted
      ensures error.failure == TempNamesExhausted ==>
        rules.target(path) != [] && NamesTaken(old(tree), rules.target(path), old(counter))
    {
      if rules.target(path) == [] {
        return WriteError(BadPath, false, false);
      }
      error := WriteBelow(rules.Blank(), rules.target(path), content, mode);
    }

    method WriteBelow(blank: bool, target: Path, content: string, mode: nat) returns (error: WriteError)
      requires Valid() && target != []
      modifies this`tree, this`trace, this`clock, this`counter
      ensures Valid()
      ensures SafeSince(old(trace), trace, old(tree), target, File(Perm(mode), content))
      ensures error.failure == NoFailure ==> !blank && Writable(old(tree), target) && !error.removeFailed
      ensures error.failure == NoFailure ==> tree == Replaced(old(tree), target, File(Perm(mode), content))
      ensures error.failure != NoFailure ==> KeptOld(old(tree), tree, target) && OnlyLeftovers(old(tree), tree, target)
      ensures error.failure != NoFailure && !error.removeFailed ==> Grown(old(tree), tree, target)
      ensures blank ==> !error.OK() && tree == old(tree)
      ensures Reliable() && !blank && Writable(old(tree), target) ==> error.OK() || error.failure == TempNamesExhausted
      ensures error.failure == TempNamesExhausted ==> NamesTaken(old(tree), target, old(counter))
    {
      ghost var before, node := tree, File(Perm(mode), content);
      var usable := OpenRoot(blank, true);
      assert target[..0] == [];
      OpenedIsGrown(before, tree, target);
      GrownIsSafe(before, tree, target, node);
      if !usable {
        return WriteError(NoWorkspace, false, false);
      }
      ghost var start, past, counter0 := tree, trace, counter;
      var failure, removeFailed := ReplaceInRoot(target, content, mode);
      StartedFromOpened(before, start, target, node, past, trace);
      LeftFromOpened(before, start, tree, target);
      if failure == TempNamesExhausted {
        OpenedIsGrown(before, start, target);
        TakenBefore(before, start, target, counter0);
      }
      var closeFailed := Fault();
      return WriteError(failure, removeFailed, closeFailed);
    }

    /** readEnvironmentRestoreWorkspaceFileWithInfo. */
    method ReadFile(rules: Rules, path: string) returns (reading: Reading)
      requires Valid() && rules.directory == directory
      modifies this`tree, this`trace, this`clock
      ensures tree == old(tree) && trace == old(trace)
      ensures reading != Unreadable ==> reading == ReadOf(tree, rules, path)
      ensures Reliable() ==> reading == ReadOf(tree, rules, path)
      ensures reading.Bytes? ==> OnlyDirectoriesAbove(tree, rules.target(path)) && rules.target(path) in tree
      ensures reading.Bytes? ==> tree[rules.target(path)] == File(reading.mode, reading.content)
    {
      ReadsNoLink(tree, rules, path);
      if rules.target(path) == [] {
        return Unreadable;
      }
      reading := ReadBelow(rules.Blank(), rules.target(path));
    }

    method ReadBelow(blank: bool, target: Path) returns (reading: Reading)
      requires Valid() && target != []
      modifies this`tree, this`trace, this`clock
      ensures tree == old(tree) && trace == old(trace)
      ensures reading != Unreadable ==> reading == ReadAt(tree, blank, target)
      ensures Reliable() ==> reading == ReadAt(tree, blank, target)
    {
      var usable := OpenRoot(blank, false);
      if !usable {
        return Unreadable;
      }
      if target in tree {
        forall k | 0 <= k < |target| ensures IsDirectory(tree, target[..k]) {
          AncestorsAreDirectories(tree, target, k);
        }
      }
      var free := RejectSymlinks(target);
      if !free {
        return Unreadable;
      }
      var stat := Lstat(target);
      if !stat.Found? {
        return Unreadable;
      }
      var failed := Fault();
      var closeFailed := Fault();
      if failed || closeFailed || stat.node.Directory? {
        return Unreadable;
      }
      return if stat.node.File? then Bytes(stat.node.mode, stat.node.content) else NotRegular;
    }
  }

  lemma OpenedIsGrown(before: Tree, now: Tree, target: Path)
    requires now == before || ([] !in before && now == before[[] := Directory])
    requires target != []
    ensures Grown(before, now, target)
  {
  }

  /** A missing workspace directory is one more ancestor, so creating it first does not change the outcome. */
  lemma StartedFromOpened(before: Tree, start: Tree, target: Path, node: Node, past: seq<Tree>, trace: seq<Tree>)
    requires start == before || ([] !in before && start == before[[] := Directory])
    requires target != [] && SafeSince(past, trace, start, target, node)
    ensures SafeSince(past, trace, before, target, node)
  {
    forall i | |past| <= i < |trace| ensures CrashSafe(before, trace[i], target, node) {
      assert CrashSafe(start, trace[i], target, node);
      LeftFromOpenedSafe(before, start, trace[i], target, node);
    }
  }

  lemma LeftFromOpenedSafe(before: Tree, start: Tree, now: Tree, target: Path, node: Node)
    requires start == before || ([] !in before && start == before[[] := Directory])
    requires target != [] && CrashSafe(start, now, target, node)
    ensures CrashSafe(before, now, target, node)
  {
  }

  lemma LeftFromOpened(before: Tree, start: Tree, now: Tree, target: Path)
    requires start == before || ([] !in before && start == before[[] := Directory])
    requires target != []
    ensures Writable(start, target) <==> Writable(before, target)
    ensures forall node :: Replaced(start, target, node) == Replaced(before, target, node)
    ensures KeptOld(start, now, target) && OnlyLeftovers(start, now, target) ==> KeptOld(before, now, target) && OnlyLeftovers(before, now, target)
    ensures Grown(start, now, target) ==> Grown(before, now, target)
  {
    assert target[..0] == [];
    AncestorIsProper(target, []);
    assert WithAncestors(start, target) == WithAncestors(before, target);
  }

  /** Names beside the target that are taken after making its directories were taken before. */
  lemma TakenBefore(before: Tree, now: Tree, target: Path, counter: nat)
    requires target != [] && Grown(before, now, target) && NamesTaken(now, target, counter)
    ensures NamesTaken(before, target, counter)
  {
    forall k: nat | 1 <= k <= MAX_TEMP_NAMES ensures NumberedTemp(target, counter, k) in before {
      assert |NumberedTemp(target, counter, k)| == |target|;
    }
  }

  lemma OneMoreDirectory(before: Tree, now: Tree, target: Path, k: nat)
    requires WellFormed(now) && Grown(before, now, target) && 0 < k < |target| && target[..k] !in now
    requires IsDirectory(now, target[..k - 1])
    ensures WellFormed(now[target[..k] := Directory]) && Grown(before, now[target[..k] := Directory], target)
  {
    var p := target[..k];
    assert p[..k - 1] == target[..k - 1];
    assert p < target;
    NewFileIsWellFormed(now, p, Directory);
  }

  lemma NewFileIsWellFormed(tree: Tree, p: Path, node: Node)
    requires WellFormed(tree) && p != [] && p !in tree && IsDirectory(tree, Parent(p))
    ensures WellFormed(tree[p := node])
  {
  }

  lemma SameFileIsWellFormed(tree: Tree, p: Path, node: Node)
    requires WellFormed(tree) && p in tree && tree[p].File? && node.File?
    ensures WellFormed(tree[p := node])
  {
  }

  lemma WithoutFileIsWellFormed(tree: Tree, p: Path)
    requires WellFormed(tree) && p in tree && tree[p].File?
    ensures WellFormed(tree - {p})
  {
  }

  lemma GrownSinceIsSafe(past: seq<Tree>, trace: seq<Tree>, before: Tree, target: Path, node: Node)
    requires GrownSince(past, trace, before, target)
    ensures SafeSince(past, trace, before, target, node)
  {
    forall i | |past| <= i < |trace| ensures CrashSafe(before, trace[i], target, node) {
      GrownIsSafe(before, trace[i], target, node);
    }
  }

  lemma TempStands(before: Tree, grown: Tree, target: Path, temp: Path, node: Node)
    requires Grown(before, grown, target) && TempOf(target, temp) && temp !in grown && node.File?
    ensures WithTemp(before, grown[temp := node], target, temp)
  {
    assert grown[temp := node] - {temp} == grown;
  }

  /** Renaming the finished temporary file over the target is the replacement. */
  lemma Renamed(before: Tree, now: Tree, target: Path, temp: Path, node: Node)
    requires WellFormed(before) && WellFormed(now) && WithTemp(before, now, target, temp) && now[temp] == node
    requires FreeOfLinks(now - {temp}, target) && forall k | 0 <= k < |target| :: IsDirectory(now - {temp}, target[..k])
    requires target in now ==> now[target] != Directory
    requires target != []
    ensures Writable(before, target) && (now - {temp})[target := node] == Replaced(before, target, node)
    ensures WellFormed((now - {temp})[target := node]) && CrashSafe(before, (now - {temp})[target := node], target, node)
  {
    TempIsNotTheTarget(target, temp);
    var grown := now - {temp};
    assert target in grown ==> target in before;
    var after := Replaced(before, target, node);
    forall p ensures p in grown[target := node] <==> p in after {
      AncestorIsProper(target, p);
      if p < target { assert p == target[..|p|]; }
    }
    assert grown[target := node] == after;
    ReplacedIsWellFormed(before, target, node);
    forall p | p in after && p !in before && p != target ensures p < target && after[p] == Directory {
      ReplacedElsewhere(before, target, node, p);
    }
  }

  /** The workspace can be opened: it is a real directory, or missing where it may be created. */
  predicate CanOpen(tree: Tree, create: bool) {
    if [] in tree then tree[[]] == Directory else create
  }

  lemma NothingBelow(tree: Tree, p: Path, k: nat)
    requires WellFormed(tree) && k <= |p| && p[..k] !in tree
    ensures forall j | k <= j <= |p| :: p[..j] !in tree
    ensures p !in tree
  {
    assert p[..|p|] == p;
    forall j | k < j <= |p| ensures p[..j] !in tree {
      assert p[..j][..k] == p[..k];
      if p[..j] in tree {
        AncestorsAreDirectories(tree, p[..j], k);
      }
    }
  }
}
