/**
 * The files below a restore workspace, keyed by the elements of their cleaned path; the workspace directory
 * itself is the empty path. The functions say what replacing one file does to the whole tree.
 */
module FileTree {

  type Path = seq<string>

  datatype Node =
    | Directory
    | File(mode: nat, content: string)
    | Symlink
    | Special

  type Tree = map<Path, Node>

  function Parent(p: Path): Path {
    if p == [] then [] else p[..|p| - 1]
  }

  predicate IsDirectory(tree: Tree, p: Path) {
    p in tree && tree[p] == Directory
  }

  /** Everything but the workspace itself lies in a directory. */
  ghost predicate WellFormed(tree: Tree) {
    forall p {:trigger Parent(p)} | p in tree && p != [] :: IsDirectory(tree, Parent(p))
  }

  /** Every directory that would have to hold the path, from the workspace down. */
  function Ancestors(target: Path): set<Path> {
    set k | 0 <= k < |target| :: target[..k]
  }

  /** MkdirAll on the parent: missing ancestors become directories and nothing else changes. */
  function WithAncestors(tree: Tree, target: Path): Tree {
    map p | p in tree.Keys + Ancestors(target) :: if p in tree then tree[p] else Directory
  }

  /** The tree after the target was replaced. */
  function Replaced(tree: Tree, target: Path, node: Node): Tree {
    WithAncestors(tree, target)[target := node]
  }

  /** The target can be replaced: its ancestors are directories or missing, and it is neither a directory nor a link. */
  predicate Writable(tree: Tree, target: Path) {
    && target != []
    && (forall k | 0 <= k < |target| :: target[..k] in tree ==> tree[target[..k]] == Directory)
    && (target in tree ==> tree[target].File? || tree[target].Special?)
  }

  /** The tree with at most some missing ancestors of the target added. */
  ghost predicate Grown(before: Tree, now: Tree, target: Path) {
    && (forall p | p in before :: p in now && now[p] == before[p])
    && (forall p | p in now && p !in before :: p < target && now[p] == Directory)
  }

  /** The target is either as it was or completely new, and every other file is as it was. */
  ghost predicate OldOrNew(before: Tree, now: Tree, target: Path, node: Node) {
    && (forall p | p in before && p != target :: p in now && now[p] == before[p])
    && (target in now ==> now[target] == node || (target in before && now[target] == before[target]))
    && (target in before ==> target in now)
  }

  /** Nothing that was there has changed: the old file is still in place, or still missing. */
  ghost predicate KeptOld(before: Tree, now: Tree, target: Path) {
    && (forall p | p in before :: p in now && now[p] == before[p])
    && (target !in before ==> target !in now)
  }

  lemma AncestorIsProper(target: Path, p: Path)
    ensures p in Ancestors(target) <==> p < target
  {
    if p < target {
      assert p == target[..|p|];
    }
  }

  lemma {:induction false} AncestorsAreDirectories(tree: Tree, p: Path, k: nat)
    requires WellFormed(tree) && p in tree && k < |p|
    ensures IsDirectory(tree, p[..k])
    decreases |p|
  {
    assert IsDirectory(tree, Parent(p));
    if k < |p| - 1 {
      AncestorsAreDirectories(tree, Parent(p), k);
      assert Parent(p)[..k] == p[..k];
    }
  }

  /** Replacing a file gives a tree again. */
  lemma ReplacedIsWellFormed(tree: Tree, target: Path, node: Node)
    requires WellFormed(tree) && Writable(tree, target) && !node.Directory?
    ensures WellFormed(Replaced(tree, target, node))
  {
    var after := Replaced(tree, target, node);
    forall p | p in after && p != [] ensures IsDirectory(after, Parent(p)) {
      if p in tree && p != target {
        assert IsDirectory(tree, Parent(p));
        assert Parent(p) != target;
      } else {
        var k :| 0 <= k <= |target| && p == target[..k];
        assert Parent(p) == target[..k - 1];
        AncestorIsProper(target, Parent(p));
        assert target[..k - 1] != target;
      }
    }
  }

  /** Replacing one file leaves every other file as it was, and adds none. */
  lemma ReplacedElsewhere(tree: Tree, target: Path, node: Node, p: Path)
    requires Writable(tree, target) && p != target
    ensures var after := Replaced(tree, target, node);
      && (p in tree ==> p in after && after[p] == tree[p])
      && (p in after && p !in tree ==> after[p] == Directory && p < target)
  {
    AncestorIsProper(target, p);
  }
}
