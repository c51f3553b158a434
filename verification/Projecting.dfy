/** Several files written one after the other: what stays of each once all of them are in place. */
module Projecting {
  import opened FileTree

  datatype Write = Write(target: Path, node: Node)

  function WriteAll(tree: Tree, writes: seq<Write>): Tree
    decreases |writes|
  {
    if writes == [] then tree
    else
      var last := writes[|writes| - 1];
      Replaced(WriteAll(tree, writes[..|writes| - 1]), last.target, last.node)
  }

  /** Each write finds its target replaceable in the tree the writes before it leave. */
  predicate AllWritable(tree: Tree, writes: seq<Write>)
    decreases |writes|
  {
    writes == [] ||
    (AllWritable(tree, writes[..|writes| - 1]) &&
     Writable(WriteAll(tree, writes[..|writes| - 1]), writes[|writes| - 1].target) && writes[|writes| - 1].node.File?)
  }

  predicate Written(writes: seq<Write>, target: Path) {
    exists i | 0 <= i < |writes| :: writes[i].target == target
  }

  /** Two writes to the same file write the same. */
  predicate Consistent(writes: seq<Write>) {
    forall i, j | 0 <= i < j < |writes| && writes[i].target == writes[j].target :: writes[i].node == writes[j].node
  }

  lemma {:induction false} WriteAllIsWellFormed(tree: Tree, writes: seq<Write>)
    requires WellFormed(tree) && AllWritable(tree, writes)
    ensures WellFormed(WriteAll(tree, writes))
    decreases |writes|
  {
    if writes != [] {
      var init, last := writes[..|writes| - 1], writes[|writes| - 1];
      WriteAllIsWellFormed(tree, init);
      ReplacedIsWellFormed(WriteAll(tree, init), last.target, last.node);
    }
  }

  /** The file was there before and is the same, or it was not there and is none now. */
  predicate Untouched(before: Tree, after: Tree, p: Path) {
    if p in before then p in after && after[p] == before[p] else p in after ==> after[p] == Directory
  }

  /** Later writes never disturb what an earlier write, or nobody, wrote. */
  lemma {:induction false} OtherWritesDoNotDisturb(tree: Tree, writes: seq<Write>, from: nat, p: Path)
    requires AllWritable(tree, writes) && from <= |writes|
    requires forall j | from <= j < |writes| :: writes[j].target != p
    ensures AllWritable(tree, writes[..from]) && Untouched(WriteAll(tree, writes[..from]), WriteAll(tree, writes), p)
    decreases |writes|
  {
    var n := |writes| - 1;
    if from > n {
      assert writes[..from] == writes;
    } else {
      assert writes[..n][..from] == writes[..from];
      assert forall j | from <= j < n :: writes[..n][j] == writes[j];
      OtherWritesDoNotDisturb(tree, writes[..n], from, p);
      ReplacedElsewhere(WriteAll(tree, writes[..n]), writes[n].target, writes[n].node, p);
    }
  }

  lemma LastWriteDecides(tree: Tree, writes: seq<Write>, last: nat)
    requires AllWritable(tree, writes) && last < |writes|
    requires forall j | last < j < |writes| :: writes[j].target != writes[last].target
    ensures Holds(WriteAll(tree, writes), writes[last])
  {
    OtherWritesDoNotDisturb(tree, writes, last + 1, writes[last].target);
    assert writes[..last + 1][..last] == writes[..last];
  }

  /** A written file is there and is a file; any other file is as it was. */
  lemma WrittenOrUntouched(tree: Tree, writes: seq<Write>, p: Path)
    requires AllWritable(tree, writes)
    ensures Written(writes, p) ==> p in WriteAll(tree, writes) && WriteAll(tree, writes)[p].File?
    ensures !Written(writes, p) ==> Untouched(tree, WriteAll(tree, writes), p)
  {
    if Written(writes, p) {
      var i: nat :| i < |writes| && writes[i].target == p;
      var last := LastIndex(writes, p, i, |writes|);
      LastWriteDecides(tree, writes, last);
      WritesFiles(tree, writes, last);
    } else {
      OtherWritesDoNotDisturb(tree, writes, 0, p);
    }
  }

  lemma {:induction false} WritesFiles(tree: Tree, writes: seq<Write>, i: nat)
    requires AllWritable(tree, writes) && i < |writes|
    ensures writes[i].node.File? && writes[i].target != []
    decreases |writes|
  {
    if i < |writes| - 1 {
      WritesFiles(tree, writes[..|writes| - 1], i);
    }
  }

  predicate Holds(tree: Tree, write: Write) {
    write.target in tree && tree[write.target] == write.node
  }

  /** The target of every write holds what that write wrote if and only if the writes are consistent. */
  lemma EveryWriteSurvivesExactly(tree: Tree, writes: seq<Write>)
    requires AllWritable(tree, writes)
    ensures (forall i | 0 <= i < |writes| :: Holds(WriteAll(tree, writes), writes[i])) <==> Consistent(writes)
  {
    var after := WriteAll(tree, writes);
    if Consistent(writes) {
      forall i | 0 <= i < |writes| ensures Holds(after, writes[i]) {
        LastWriteDecides(tree, writes, LastIndex(writes, writes[i].target, i, |writes|));
      }
    }
    if forall i | 0 <= i < |writes| :: Holds(after, writes[i]) {
      forall i, j | 0 <= i < j < |writes| && writes[i].target == writes[j].target ensures writes[i].node == writes[j].node {
        assert Holds(after, writes[i]) && Holds(after, writes[j]);
      }
    }
  }

  /** The last of the writes before the limit that goes to the target; one is known. */
  function LastIndex(writes: seq<Write>, target: Path, known: nat, limit: nat): (last: nat)
    requires known < limit <= |writes| && writes[known].target == target
    requires forall j | limit <= j < |writes| :: writes[j].target != target
    ensures last < |writes| && writes[last].target == target
    ensures forall j | last < j < |writes| :: writes[j].target != target
    decreases limit
  {
    if writes[limit - 1].target == target then limit - 1 else LastIndex(writes, target, known, limit - 1)
  }

  /** What a file holds in the end: what the last write to it wrote, or what it held before. */
  predicate Leaves(tree: Tree, writes: seq<Write>, write: Write) {
    if Written(writes, write.target) then exists i | 0 <= i < |writes| :: LastTo(writes, i) && writes[i] == write
    else Holds(tree, write)
  }

  predicate LastTo(writes: seq<Write>, i: nat)
    requires i < |writes|
  {
    forall j | i < j < |writes| :: writes[j].target != writes[i].target
  }

  lemma OneIsLast(writes: seq<Write>, i: nat, j: nat)
    requires i < |writes| && j < |writes| && writes[i].target == writes[j].target && LastTo(writes, i) && LastTo(writes, j)
    ensures i == j
  {
  }

  lemma LastIsLeft(tree: Tree, writes: seq<Write>, last: nat, write: Write)
    requires AllWritable(tree, writes) && last < |writes| && writes[last].target == write.target && LastTo(writes, last)
    ensures Holds(WriteAll(tree, writes), write) <==> writes[last] == write
    ensures Leaves(tree, writes, write) <==> writes[last] == write
  {
    LastWriteDecides(tree, writes, last);
    assert Written(writes, write.target);
    if Leaves(tree, writes, write) {
      var i: nat :| i < |writes| && LastTo(writes, i) && writes[i] == write;
      OneIsLast(writes, i, last);
    }
  }

  lemma LeavesExactly(tree: Tree, writes: seq<Write>, write: Write)
    requires AllWritable(tree, writes) && write.node.File?
    ensures Holds(WriteAll(tree, writes), write) <==> Leaves(tree, writes, write)
  {
    if Written(writes, write.target) {
      var known: nat :| known < |writes| && writes[known].target == write.target;
      LastIsLeft(tree, writes, LastIndex(writes, write.target, known, |writes|), write);
    } else {
      WrittenOrUntouched(tree, writes, write.target);
    }
  }
}
