/**
  How large nodes get: no insert, split or delete takes a leaf to the split threshold, and an
  internal node takes a separator only if it stays below it.
*/
module BzSizes {
  import opened Options
  import opened BzNodes
  import opened BzSplit
  import opened BzCascade
  import opened BzLayout
  import opened BzInsert
  import opened BzMerge
  import opened BzRuns

  /** Every leaf under the node uses less space than the threshold. */
  ghost predicate LeavesBelow(n: Node, threshold: nat) {
    match n
    case Leaf(slots) => UsedSpace(slots) < threshold
    case Internal(_, children) => forall i :: 0 <= i < |children| ==> LeavesBelow(children[i], threshold)
  }

  /** Main result: a leaf counts as full for a key exactly when the record would take it to the threshold. */
  lemma FullIff(slots: seq<Slot>, key: Key, payload: nat, threshold: nat)
    ensures LeafIsFull(slots, key, threshold) <==> UsedSpace(slots + [Slot(true, key, payload)]) >= threshold
  {
    var slot := Slot(true, key, payload);
    TotalSizeConcat(slots, [slot]);
    assert [slot][1..] == [] && TotalSize([slot]) == RecordSize(slot);
  }

  // ---------- Leaves ----------

  lemma {:induction false} SizeOfPart(slots: seq<Slot>, n: nat)
    requires n <= |slots|
    ensures TotalSize(slots[..n]) + TotalSize(slots[n..]) == TotalSize(slots)
  {
    TotalSizeConcat(slots[..n], slots[n..]);
    assert slots[..n] + slots[n..] == slots;
  }

  lemma HalvesBelow(slots: seq<Slot>, threshold: nat)
    requires Visible(slots) != [] && UsedSpace(slots) < threshold
    ensures var (l, r, _) := LeafHalves(slots); LeavesBelow(l, threshold) && LeavesBelow(r, threshold)
  {
    var sorted := Sort(Visible(slots));
    var n := LeftCount(sorted, TotalSize(sorted) / 2);
    LeftCountBalances(sorted, TotalSize(sorted) / 2);
    SortSize(Visible(slots));
    HiddenAndVisible(slots);
    PartsBelow(slots, sorted, n, threshold);
  }

  lemma PartsBelow(slots: seq<Slot>, sorted: seq<Slot>, n: nat, threshold: nat)
    requires UsedSpace(slots) < threshold && n <= |sorted| <= |slots| && TotalSize(sorted) <= TotalSize(slots)
    ensures UsedSpace(sorted[..n]) < threshold && UsedSpace(sorted[n..]) < threshold
  {
    SizeOfPart(sorted, n);
  }

  lemma {:induction false} HideSize(slots: seq<Slot>, key: Key)
    ensures TotalSize(Hide(slots, key)) == TotalSize(slots)
  {
    if slots != [] {
      HideSize(slots[1..], key);
      var r := Hide(slots, key);
      if Matches(slots[0], key) {
        assert r[1..] == slots[1..];
      } else {
        assert r[1..] == Hide(slots[1..], key);
      }
    }
  }

  // ---------- Nodes and stacks ----------

  lemma InsertAtBelow(n: Node, i: nat, sep: Key, l: Node, r: Node, threshold: nat)
    requires n.Internal? && |n.children| == |n.seps| + 1 && i <= |n.seps|
    requires LeavesBelow(n, threshold) && LeavesBelow(l, threshold) && LeavesBelow(r, threshold)
    ensures LeavesBelow(InsertAt(n, i, sep, l, r), threshold)
  {
    var n' := InsertAt(n, i, sep, l, r);
    forall j | 0 <= j < |n'.children|
      ensures LeavesBelow(n'.children[j], threshold)
    {
      assert n'.children[j] == if j < i then n.children[j] else if j == i then l
                               else if j == i + 1 then r else n.children[j - 1];
    }
  }

  lemma WithSeparatorBelow(n: Node, key: Key, l: Node, r: Node, threshold: nat)
    requires n.Internal? && |n.children| == |n.seps| + 1 && WithSeparator(n, key, l, r).Some?
    requires LeavesBelow(n, threshold) && LeavesBelow(l, threshold) && LeavesBelow(r, threshold)
    ensures LeavesBelow(WithSeparator(n, key, l, r).value, threshold)
  {
    InsertAtBelow(n, SeparatorPlace(n.seps, key).value, key, l, r, threshold);
  }

  lemma CutBelowBoth(n: Node, m: nat, threshold: nat)
    requires n.Internal? && 0 < m <= |n.seps| && |n.children| == |n.seps| + 1 && LeavesBelow(n, threshold)
    ensures LeavesBelow(CutLeft(n, m), threshold) && LeavesBelow(CutRight(n, m), threshold)
  {
  }

  lemma NodeHalvesBelow(n: Node, key: Key, l: Node, r: Node, threshold: nat)
    requires n.Internal? && |n.children| == |n.seps| + 1 >= 2 && Halves(n, key, l, r).Some?
    requires LeavesBelow(n, threshold) && LeavesBelow(l, threshold) && LeavesBelow(r, threshold)
    ensures var (left, right) := Halves(n, key, l, r).value;
            LeavesBelow(left, threshold) && LeavesBelow(right, threshold)
  {
    var m := |n.children| / 2;
    CutBelowBoth(n, m, threshold);
    if key.rank < n.seps[m - 1].rank {
      WithSeparatorBelow(CutLeft(n, m), key, l, r, threshold);
    } else {
      WithSeparatorBelow(CutRight(n, m), key, l, r, threshold);
    }
  }

  lemma SetChildBelow(f: Frame, a: Node, b: Node, threshold: nat)
    requires FrameOk(f) && LeavesBelow(SetChild(f, a), threshold)
    ensures LeavesBelow(a, threshold)
    ensures LeavesBelow(b, threshold) ==> LeavesBelow(SetChild(f, b), threshold)
  {
    var fa, fb := SetChild(f, a), SetChild(f, b);
    assert fa.children[f.index] == a;
    forall i | 0 <= i < |fb.children| && LeavesBelow(b, threshold)
      ensures LeavesBelow(fb.children[i], threshold)
    {
      assert LeavesBelow(fa.children[i], threshold);
    }
  }

  lemma {:induction false} PlugBelow(stack: seq<Frame>, a: Node, b: Node, threshold: nat)
    requires StackOk(stack) && LeavesBelow(Plug(stack, a), threshold)
    ensures LeavesBelow(a, threshold)
    ensures LeavesBelow(b, threshold) ==> LeavesBelow(Plug(stack, b), threshold)
    decreases |stack|
  {
    if stack != [] {
      PlugBelow(Rest(stack), SetChild(Top(stack), a), SetChild(Top(stack), b), threshold);
      SetChildBelow(Top(stack), a, b, threshold);
    }
  }

  lemma PairBelow(sep: Key, l: Node, r: Node, threshold: nat)
    requires LeavesBelow(l, threshold) && LeavesBelow(r, threshold)
    ensures LeavesBelow(Internal([sep], [l, r]), threshold)
  {
  }

  lemma TopBelow(stack: seq<Frame>, c: Node, threshold: nat)
    requires StackOk(stack) && stack != [] && Linked(stack, c) && LeavesBelow(Plug(stack, c), threshold)
    ensures Plug(stack, c) == Plug(Rest(stack), Top(stack).node) && LeavesBelow(Top(stack).node, threshold)
  {
    SetSame(Top(stack));
    PlugBelow(Rest(stack), Top(stack).node, Top(stack).node, threshold);
  }

  lemma {:induction false} CascadeBelow(stack: seq<Frame>, t: nat, c: Node, key: Key, l: Node, r: Node, threshold: nat)
    requires StackOk(stack) && stack != [] && Linked(stack, c) && LeavesBelow(Plug(stack, c), threshold)
    requires LeavesBelow(l, threshold) && LeavesBelow(r, threshold) && PrepareForSplit(stack, t, key, l, r).Prepared?
    ensures LeavesBelow(Install(PrepareForSplit(stack, t, key, l, r)), threshold)
    decreases |stack|
  {
    var n, rest := Top(stack).node, Rest(stack);
    TopBelow(stack, c, threshold);
    if HasRoom(n, key, t) {
      WithSeparatorBelow(n, key, l, r, threshold);
      PlugBelow(rest, n, WithSeparator(n, key, l, r).value, threshold);
    } else {
      NodeHalvesBelow(n, key, l, r, threshold);
      var (left, right) := Halves(n, key, l, r).value;
      var sep := n.seps[|n.children| / 2 - 1];
      if rest == [] {
        PairBelow(sep, left, right, threshold);
      } else {
        CascadeBelow(rest, t, n, sep, left, right, threshold);
      }
    }
  }

  lemma SplitBelow(root: Node, key: Key, t: nat, threshold: nat)
    requires Shaped(root) && LeavesBelow(root, threshold) && SplitTree(root, key, t).Prepared?
    ensures LeavesBelow(Install(SplitTree(root, key, t)), threshold)
  {
    var stack, leaf := Descend(root, key), LeafFor(root, key);
    RootIsPlug(root, key);
    DescendLinked(root, key);
    PlugBelow(stack, leaf, leaf, threshold);
    HalvesBelow(leaf.slots, threshold);
    var (l, r, sep) := LeafHalves(leaf.slots);
    if stack == [] {
      PairBelow(sep, l, r, threshold);
    } else {
      CascadeBelow(stack, t, leaf, sep, l, r, threshold);
    }
  }

  // ---------- Inserts, deletes and runs ----------

  lemma RoundBelow(root: Node, key: Key, payload: nat, threshold: nat)
    requires Shaped(root) && LeavesBelow(root, threshold)
    ensures var r := InsertRound(root, key, payload, threshold);
            r.Added? || r.Again? ==> LeavesBelow(r.root, threshold)
  {
    var stack, leaf := Descend(root, key), LeafFor(root, key);
    RootIsPlug(root, key);
    match InsertRound(root, key, payload, threshold)
    case Added(_) =>
      FullIff(leaf.slots, key, payload, threshold);
      PlugBelow(stack, leaf, Leaf(leaf.slots + [Slot(true, key, payload)]), threshold);
    case Again(_) => SplitBelow(root, key, threshold, threshold);
    case _ =>
  }

  lemma {:induction false} InsertBelowThreshold(root: Node, key: Key, payload: nat, threshold: nat, n: nat)
    requires Shaped(root) && LeavesBelow(root, threshold)
    ensures var r := Insert(root, key, payload, threshold, n);
            r.Added? || r.Again? ==> LeavesBelow(r.root, threshold)
    decreases n
  {
    if n > 0 {
      RoundBelow(root, key, payload, threshold);
      var r := InsertRound(root, key, payload, threshold);
      if r.Again? && Shaped(r.root) {
        InsertBelowThreshold(r.root, key, payload, threshold, n - 1);
      }
    }
  }

  lemma DeleteBelow(root: Node, key: Key, threshold: nat)
    requires Shaped(root) && LeavesBelow(root, threshold) && DeleteAt(root, key).Some?
    ensures LeavesBelow(DeleteAt(root, key).value, threshold)
  {
    var slots := LeafFor(root, key).slots;
    RootIsPlug(root, key);
    HideSize(slots, key);
    PlugBelow(Descend(root, key), Leaf(slots), Leaf(Hide(slots, key)), threshold);
  }

  lemma CallBelow(root: Node, op: Op, threshold: nat, ok: bool, root': Node)
    requires Does(root, op, threshold, ok, root') && LeavesBelow(root, threshold)
    ensures LeavesBelow(root', threshold)
  {
    if ok {
      match op
      case Put(key, payload) =>
        var n :| Insert(root, key, payload, threshold, n) == Added(root');
        InsertBelowThreshold(root, key, payload, threshold, n);
      case Remove(key) => DeleteBelow(root, key, threshold);
    }
  }

  /** Main result: after any sequence of inserts and deletes every leaf is below the threshold. */
  lemma {:induction false} LeavesStayBelow(trees: seq<Node>, ops: seq<Op>, oks: seq<bool>, threshold: nat, n: nat)
    requires IsRun(trees, ops, oks, threshold) && n <= |ops| && HEADER < threshold
    ensures LeavesBelow(trees[n], threshold)
  {
    if n > 0 {
      LeavesStayBelow(trees, ops, oks, threshold, n - 1);
      CallBelow(trees[n - 1], ops[n - 1], threshold, oks[n - 1], trees[n]);
    }
  }

  // ---------- Internal nodes ----------

  lemma SeparatorSize(n: Node, i: nat, key: Key, l: Node, r: Node)
    requires n.Internal? && |n.children| == |n.seps| + 1 && i <= |n.seps|
    ensures NodeSize(InsertAt(n, i, key, l, r)) == NodeSize(n) + Pad(key.size) + WORD + WORD
  {
    PaddedConcat(n.seps[..i] + [key], n.seps[i..]);
    PaddedConcat(n.seps[..i], [key]);
    PaddedConcat(n.seps[..i], n.seps[i..]);
    assert n.seps[..i] + n.seps[i..] == n.seps;
    assert [key][1..] == [] && Padded([key]) == Pad(key.size);
  }

  /**
    Main result: a node that takes a separator stays below the threshold, and one that is cut
    instead would have come within a node header of it.
  */
  lemma RoomMeans(n: Node, key: Key, l: Node, r: Node, threshold: nat)
    requires n.Internal? && |n.children| == |n.seps| + 1 && WithSeparator(n, key, l, r).Some?
    ensures var size := NodeSize(WithSeparator(n, key, l, r).value);
            if HasRoom(n, key, threshold) then size < threshold else size + HEADER >= threshold
  {
    SeparatorSize(n, SeparatorPlace(n.seps, key).value, key, l, r);
  }
}
