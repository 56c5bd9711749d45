/** BzTree::Delete, and sequences of inserts and deletes on a tree that starts empty. */
module BzRuns {
  import opened Options
  import opened BzNodes
  import opened BzSplit
  import opened BzCascade
  import opened BzInsert

  // ---------- Deleting ----------

  /** LeafNode::Delete: the first visible record with the key is hidden. */
  function Hide(slots: seq<Slot>, key: Key): (r: seq<Slot>)
    ensures |r| == |slots|
    ensures forall i :: 0 <= i < |r| ==> r[i] == slots[i] || r[i] == slots[i].(visible := false)
  {
    if slots == [] then []
    else if Matches(slots[0], key) then [slots[0].(visible := false)] + slots[1..]
    else [slots[0]] + Hide(slots[1..], key)
  }

  function DeleteAt(root: Node, key: Key): Option<Node>
    requires Shaped(root)
  {
    DescendLinked(root, key);
    var slots := LeafFor(root, key).slots;
    if Search(slots, key).None? then None else Some(Plug(Descend(root, key), Leaf(Hide(slots, key))))
  }

  lemma {:induction false} HideSearch(slots: seq<Slot>, key: Key, k: Key)
    requires UniqueKeys(slots)
    ensures Search(Hide(slots, key), k) == if k.rank == key.rank then None else Search(slots, k)
  {
    if slots != [] {
      HideSearch(slots[1..], key, k);
      var r := Hide(slots, key);
      if Matches(slots[0], key) {
        assert r[1..] == slots[1..];
        assert forall i :: 0 <= i < |slots[1..]| ==> slots[1..][i] == slots[i + 1];
      } else {
        assert r[1..] == Hide(slots[1..], key);
      }
    }
  }

  lemma HideValid(slots: seq<Slot>, key: Key, lo: real, hi: real)
    requires Valid(Leaf(slots), lo, hi)
    ensures Valid(Leaf(Hide(slots, key)), lo, hi)
  {
    var r := Hide(slots, key);
    forall i, j | 0 <= i < j < |r| && r[i].visible && r[j].visible
      ensures r[i].key.rank != r[j].key.rank
    {
      assert r[i] == slots[i] && r[j] == slots[j];
    }
  }

  /** The answers after a delete that succeeded. */
  ghost predicate Loses(root: Node, root': Node, key: Key, k: Key) {
    && Shaped(root) && Shaped(root')
    && Lookup(root', k) == if k.rank == key.rank then None else Lookup(root, k)
  }

  /** Main result: a delete succeeds if and only if the key is present, and takes away that answer only. */
  lemma DeleteMeans(root: Node, key: Key, lo: real, hi: real, k: Key)
    requires Shaped(root) && Valid(root, lo, hi)
    ensures DeleteAt(root, key).Some? <==> Lookup(root, key).Some?
    ensures DeleteAt(root, key).Some? ==>
              Loses(root, DeleteAt(root, key).value, key, k) && Valid(DeleteAt(root, key).value, lo, hi)
  {
    FoundLookup(root, key);
    if DeleteAt(root, key).Some? {
      var stack, slots := Descend(root, key), LeafFor(root, key).slots;
      RootIsPlug(root, key);
      PlugValid(stack, Leaf(slots), Leaf(Hide(slots, key)), lo, hi);
      var h := Hole(stack, lo, hi);
      HideValid(slots, key, h.0, h.1);
      HideSearch(slots, key, k);
      if k.rank == key.rank {
        LookupOnPath(root, key, Leaf(Hide(slots, key)), k);
      } else {
        PlugLookup(stack, Leaf(slots), Leaf(Hide(slots, key)), k);
      }
    }
  }

  // ---------- Runs ----------

  datatype Op = Put(key: Key, payload: nat) | Remove(key: Key)

  /** What one call does to the tree, and whether it reports success; an insert takes as many rounds as it needs. */
  ghost predicate Does(root: Node, op: Op, threshold: nat, ok: bool, root': Node) {
    match op
    case Put(key, payload) =>
      && Shaped(root)
      && if ok then exists n :: Insert(root, key, payload, threshold, n) == Added(root')
         else InsertRound(root, key, payload, threshold) == Exists && root' == root
    case Remove(key) =>
      && Shaped(root)
      && if ok then DeleteAt(root, key) == Some(root') else DeleteAt(root, key) == None && root' == root
  }

  ghost predicate IsRun(trees: seq<Node>, ops: seq<Op>, oks: seq<bool>, threshold: nat) {
    && |trees| == |ops| + 1 && |oks| == |ops| && trees[0] == Leaf([])
    && forall i {:trigger ops[i]} :: 0 <= i < |ops| ==> Does(trees[i], ops[i], threshold, oks[i], trees[i + 1])
  }

  /** What a map answers for k after the first n operations: a bound key is not bound again. */
  function Answer(ops: seq<Op>, n: nat, k: Key): Option<nat>
    requires n <= |ops|
  {
    if n == 0 then None
    else
      var before, op := Answer(ops, n - 1, k), ops[n - 1];
      if op.key.rank != k.rank then before
      else if op.Remove? then None
      else if before.Some? then before
      else Some(op.payload)
  }

  predicate KeyInRange(op: Op) {
    0.0 < op.key.rank <= 1.0
  }

  /** One call on a tree that answers as the map does, for the call's key and for any key k. */
  lemma CallMeans(root: Node, op: Op, threshold: nat, ok: bool, root': Node, k: Key)
    requires Does(root, op, threshold, ok, root') && Valid(root, 0.0, 1.0) && KeyInRange(op)
    ensures ok <==> (if op.Put? then Lookup(root, op.key).None? else Lookup(root, op.key).Some?)
    ensures Valid(root', 0.0, 1.0) && Shaped(root')
    ensures Lookup(root', k) == if !ok || op.key.rank != k.rank then Lookup(root, k)
                                else if op.Put? then Some(op.payload) else None
  {
    match op
    case Put(key, payload) =>
      if ok {
        var n :| Insert(root, key, payload, threshold, n) == Added(root');
        InsertMeans(root, key, payload, threshold, n, 0.0, 1.0, k);
      } else {
        FoundLookup(root, key);
      }
    case Remove(key) => DeleteMeans(root, key, 0.0, 1.0, k);
  }

  lemma {:induction false} AnswerSameRank(ops: seq<Op>, n: nat, a: Key, b: Key)
    requires n <= |ops| && a.rank == b.rank
    ensures Answer(ops, n, a) == Answer(ops, n, b)
  {
    if n > 0 {
      AnswerSameRank(ops, n - 1, a, b);
    }
  }

  /** The tree is valid and answers k as the map does. */
  ghost predicate Agrees(root: Node, ops: seq<Op>, n: nat, k: Key)
    requires n <= |ops|
  {
    Valid(root, 0.0, 1.0) && Shaped(root) && Lookup(root, k) == Answer(ops, n, k)
  }

  /** The map, one call further. */
  lemma AnswerNext(root: Node, op: Op, threshold: nat, ok: bool, root': Node, ops: seq<Op>, n: nat, k: Key)
    requires Does(root, op, threshold, ok, root') && KeyInRange(op) && n < |ops| && ops[n] == op
    requires Agrees(root, ops, n, k) && Agrees(root, ops, n, op.key)
    ensures Agrees(root', ops, n + 1, k)
  {
    CallMeans(root, op, threshold, ok, root', k);
    if op.key.rank == k.rank {
      AnswerSameRank(ops, n, op.key, k);
    }
  }

  lemma EmptyAgrees(ops: seq<Op>, k: Key)
    ensures Agrees(Leaf([]), ops, 0, k)
  {
  }

  /**
    Main result: after any sequence of inserts and deletes, with all the splits they cause, the tree
    is valid and answers every key as the map does.
  */
  lemma {:induction false} RunMeans(
    trees: seq<Node>, ops: seq<Op>, oks: seq<bool>, threshold: nat, n: nat, k: Key)
    requires IsRun(trees, ops, oks, threshold) && n <= |ops|
    requires forall i {:trigger ops[i]} :: 0 <= i < |ops| ==> KeyInRange(ops[i])
    ensures Agrees(trees[n], ops, n, k)
  {
    if n == 0 {
      EmptyAgrees(ops, k);
    } else {
      RunMeans(trees, ops, oks, threshold, n - 1, k);
      RunMeans(trees, ops, oks, threshold, n - 1, ops[n - 1].key);
      AnswerNext(trees[n - 1], ops[n - 1], threshold, oks[n - 1], trees[n], ops, n - 1, k);
    }
  }

  /** Main result: an insert succeeds if and only if the map lacks its key, a delete if and only if it has it. */
  lemma ReportsMean(trees: seq<Node>, ops: seq<Op>, oks: seq<bool>, threshold: nat, i: nat)
    requires IsRun(trees, ops, oks, threshold) && i < |ops|
    requires forall j {:trigger ops[j]} :: 0 <= j < |ops| ==> KeyInRange(ops[j])
    ensures oks[i] <==> (if ops[i].Put? then Answer(ops, i, ops[i].key).None? else Answer(ops, i, ops[i].key).Some?)
  {
    RunMeans(trees, ops, oks, threshold, i, ops[i].key);
    CallMeans(trees[i], ops[i], threshold, oks[i], trees[i + 1], ops[i].key);
  }
}
