/**
  Merging two siblings and rebuilding their parent: the meaning of the tree does not change, and
  the merged leaf fits into a leaf of the usual size.
*/
module BzMerge {
  import opened Options
  import opened BzNodes
  import opened BzSplit
  import opened BzCascade
  import opened BzLayout

  /** LeafNode::MergeNodes: the visible records of both leaves, each side sorted. */
  function MergedLeaf(l: Node, r: Node): Node
    requires l.Leaf? && r.Leaf?
  {
    Leaf(Sort(Visible(l.slots)) + Sort(Visible(r.slots)))
  }

  predicate Alike(l: Node, r: Node) {
    l.Leaf? == r.Leaf?
  }

  function Merged(l: Node, sep: Key, r: Node): Node
    requires Alike(l, r)
  {
    if l.Leaf? then MergedLeaf(l, r) else Joined(l, sep, r)
  }

  /** The parent after CheckMerge has merged children i and i + 1. */
  function MergeAt(n: Node, i: nat): Node
    requires n.Internal? && |n.children| == |n.seps| + 1 && i < |n.seps| && Alike(n.children[i], n.children[i + 1])
  {
    Dropped(n, i, Merged(n.children[i], n.seps[i], n.children[i + 1]))
  }

  // ---------- Leaves ----------

  lemma MergedInOrder(a: seq<Slot>, b: seq<Slot>, lo: real, mid: real, hi: real)
    requires InOrder(a) && InOrder(b)
    requires forall s :: s in a ==> lo < s.key.rank <= mid
    requires forall s :: s in b ==> mid < s.key.rank <= hi
    ensures InOrder(a + b)
  {
    assert forall i :: 0 <= i < |a| ==> a[i] in a;
    assert forall i :: 0 <= i < |b| ==> b[i] in b;
  }

  lemma LeavesMerged(l: Node, sep: Key, r: Node, lo: real, hi: real, k: Key)
    requires l.Leaf? && r.Leaf? && Valid(l, lo, sep.rank) && Valid(r, sep.rank, hi) && lo < sep.rank <= hi
    ensures Valid(MergedLeaf(l, r), lo, hi) && Splits(MergedLeaf(l, r), sep, l, r, k)
  {
    var a, b := Sort(Visible(l.slots)), Sort(Visible(r.slots));
    SortedRecords(l.slots);
    SortedRecords(r.slots);
    MergedInOrder(a, b, lo, sep.rank, hi);
    SortedValid(a + b, lo, hi);
    if k.rank <= sep.rank {
      SearchSame(a + b, l.slots, k);
    } else {
      SearchSame(a + b, r.slots, k);
    }
  }

  // ---------- Internal nodes ----------

  /** The left sibling's last separator is below the one that will follow it. */
  predicate EndsBelow(l: Node, sep: Key) {
    l.Internal? && l.seps != [] ==> l.seps[|l.seps| - 1].rank < sep.rank
  }

  /** Main result: the joined separators are in order exactly when the left ones end below the new one. */
  lemma JoinedSortedIff(l: Node, sep: Key, r: Node, lo: real, hi: real)
    requires l.Internal? && r.Internal? && Valid(l, lo, sep.rank) && Valid(r, sep.rank, hi)
    ensures Sorted(Joined(l, sep, r).seps) <==> EndsBelow(l, sep)
  {
    var seps, m := Joined(l, sep, r).seps, |l.seps|;
    assert seps[m] == sep;
    if EndsBelow(l, sep) {
      forall i, j | 0 <= i < j < |seps|
        ensures seps[i].rank < seps[j].rank
      {
        assert i < m ==> seps[i] == l.seps[i] && l.seps[i].rank < sep.rank;
        assert j > m ==> seps[j] == r.seps[j - m - 1] && sep.rank < r.seps[j - m - 1].rank;
      }
    } else {
      assert seps[m - 1] == l.seps[m - 1];
    }
  }

  lemma JoinedIsCut(l: Node, sep: Key, r: Node, lo: real, hi: real)
    requires l.Internal? && r.Internal? && Valid(l, lo, sep.rank) && Valid(r, sep.rank, hi) && EndsBelow(l, sep)
    ensures IsCut(Joined(l, sep, r), |l.children|, l, r)
  {
    JoinedSortedIff(l, sep, r, lo, hi);
  }

  lemma JoinedChild(n: Node, m: nat, l: Node, sep: Key, r: Node, lo: real, hi: real, i: nat)
    requires IsCut(n, m, l, r) && n.seps[m - 1] == sep && Valid(l, lo, sep.rank) && Valid(r, sep.rank, hi)
    requires i < |n.children|
    ensures Valid(n.children[i], LowAt(n.seps, i, lo), HighAt(n.seps, i, hi))
  {
    if i < m {
      assert Valid(l.children[i], LowAt(l.seps, i, lo), HighAt(l.seps, i, sep.rank));
      assert i < m - 1 ==> l.seps[i] == n.seps[i];
      assert i > 0 ==> l.seps[i - 1] == n.seps[i - 1];
    } else {
      assert Valid(r.children[i - m], LowAt(r.seps, i - m, sep.rank), HighAt(r.seps, i - m, hi));
      assert i - m < |r.seps| ==> r.seps[i - m] == n.seps[i];
      assert i - m > 0 ==> r.seps[i - m - 1] == n.seps[i - 1];
    }
  }

  lemma JoinedValid(n: Node, m: nat, l: Node, sep: Key, r: Node, lo: real, hi: real)
    requires IsCut(n, m, l, r) && n.seps[m - 1] == sep && Valid(l, lo, sep.rank) && Valid(r, sep.rank, hi)
    requires lo < sep.rank <= hi
    ensures Valid(n, lo, hi)
  {
    forall i | 0 <= i < |n.seps|
      ensures lo < n.seps[i].rank <= hi
    {
      if i < m - 1 {
        assert n.seps[i] == l.seps[i];
      } else if i >= m {
        assert n.seps[i] == r.seps[i - m];
      }
    }
    forall i | 0 <= i < |n.children|
      ensures Valid(n.children[i], LowAt(n.seps, i, lo), HighAt(n.seps, i, hi))
    {
      JoinedChild(n, m, l, sep, r, lo, hi, i);
    }
  }

  // ---------- The parent ----------

  lemma DroppedInserts(n: Node, i: nat, child: Node)
    requires n.Internal? && |n.children| == |n.seps| + 1 && Sorted(n.seps) && i < |n.seps|
    ensures Inserted(Dropped(n, i, child), i, n.seps[i], n.children[i], n.children[i + 1], n)
    ensures Dropped(n, i, child).children[i] == child
  {
  }

  /** Undoing an insertion: the parent of the merged child is valid again. */
  lemma DroppedValid(n: Node, i: nat, child: Node, n': Node, lo: real, hi: real)
    requires Valid(n, lo, hi) && n.Internal? && i < |n.seps|
    requires Inserted(n', i, n.seps[i], n.children[i], n.children[i + 1], n) && n'.children[i] == child
    requires Valid(child, LowAt(n.seps, i, lo), HighAt(n.seps, i + 1, hi))
    ensures Valid(n', lo, hi)
  {
    forall j | 0 <= j < |n'.seps|
      ensures lo < n'.seps[j].rank <= hi
    {
      assert n'.seps[j] == n.seps[if j < i then j else j + 1];
    }
    forall j | 0 <= j < |n'.children|
      ensures Valid(n'.children[j], LowAt(n'.seps, j, lo), HighAt(n'.seps, j, hi))
    {
      var j' := if j <= i then j else j + 1;
      assert j != i ==> n'.children[j] == n.children[j'];
      assert Valid(n.children[j'], LowAt(n.seps, j', lo), HighAt(n.seps, j', hi));
      assert j > 0 ==> n'.seps[j - 1] == n.seps[if j - 1 < i then j - 1 else j];
      assert j < |n'.seps| ==> n'.seps[j] == n.seps[if j < i then j else j + 1];
    }
  }

  lemma MergedSplits(l: Node, sep: Key, r: Node, lo: real, hi: real, k: Key)
    requires Alike(l, r) && Valid(l, lo, sep.rank) && Valid(r, sep.rank, hi) && lo < sep.rank <= hi && EndsBelow(l, sep)
    ensures Valid(Merged(l, sep, r), lo, hi) && Splits(Merged(l, sep, r), sep, l, r, k)
  {
    if l.Leaf? {
      LeavesMerged(l, sep, r, lo, hi, k);
    } else {
      var n := Joined(l, sep, r);
      JoinedIsCut(l, sep, r, lo, hi);
      JoinedValid(n, |l.children|, l, sep, r, lo, hi);
      ValidShaped(n, lo, hi);
      CutSplits(n, |l.children|, l, r, k);
    }
  }

  lemma MergeAtKeeps(n: Node, i: nat, lo: real, hi: real, k: Key)
    requires n.Internal? && Valid(n, lo, hi) && Shaped(n) && i < |n.seps|
    requires Alike(n.children[i], n.children[i + 1]) && EndsBelow(n.children[i], n.seps[i])
    ensures Valid(MergeAt(n, i), lo, hi) && SameAnswer(n, MergeAt(n, i), k)
  {
    var l, sep, r := n.children[i], n.seps[i], n.children[i + 1];
    assert Valid(l, LowAt(n.seps, i, lo), sep.rank) && Valid(r, sep.rank, HighAt(n.seps, i + 1, hi));
    assert LowAt(n.seps, i, lo) < sep.rank <= HighAt(n.seps, i + 1, hi);
    MergedSplits(l, sep, r, LowAt(n.seps, i, lo), HighAt(n.seps, i + 1, hi), k);
    var n' := MergeAt(n, i);
    DroppedInserts(n, i, Merged(l, sep, r));
    DroppedValid(n, i, Merged(l, sep, r), n', lo, hi);
    ValidShaped(n', lo, hi);
    InsertedLookup(n', i, sep, l, r, n, k);
  }

  /** Main result: a merge anywhere in the tree keeps the order and the answer to any key. */
  lemma MergePreservesMap(stack: seq<Frame>, n: Node, i: nat, lo: real, hi: real, k: Key)
    requires StackOk(stack) && n.Internal? && Shaped(n) && Valid(Plug(stack, n), lo, hi) && i + 1 < |n.children|
    requires Alike(n.children[i], n.children[i + 1]) && EndsBelow(n.children[i], n.seps[i])
    ensures Valid(Plug(stack, MergeAt(n, i)), lo, hi)
    ensures SameAnswer(Plug(stack, n), Plug(stack, MergeAt(n, i)), k)
  {
    var h := Hole(stack, lo, hi);
    PlugValid(stack, n, MergeAt(n, i), lo, hi);
    MergeAtKeeps(n, i, h.0, h.1, k);
    PlugLookup(stack, n, MergeAt(n, i), k);
  }

  // ---------- Which siblings are merged, and whether they fit ----------

  function Hidden(slots: seq<Slot>): seq<Slot> {
    if slots == [] then [] else if slots[0].visible then Hidden(slots[1..]) else [slots[0]] + Hidden(slots[1..])
  }

  /** GetUsedSpace less the deleted bytes; every record that is not visible has been deleted. */
  function ValidSize(slots: seq<Slot>): int {
    HEADER + TotalSize(slots) + |slots| * WORD - TotalSize(Hidden(slots))
  }

  /** CheckMerge: whether a sibling is small enough to merge with. */
  predicate SmallSibling(n: Node, threshold: nat) {
    if n.Leaf? then ValidSize(n.slots) < threshold else NodeSize(n) < threshold
  }

  predicate Small(n: Node, threshold: nat) {
    if n.Leaf? then ValidSize(n.slots) <= threshold else NodeSize(n) <= threshold
  }

  /** CheckMerge: the index of the left one of the two children to merge, the left sibling preferred. */
  function ChooseMerge(n: Node, index: nat, threshold: nat): Option<nat>
    requires n.Internal? && index < |n.children|
  {
    if !Small(n.children[index], threshold) then None
    else if index > 0 && SmallSibling(n.children[index - 1], threshold) then Some(index - 1)
    else if index + 1 < |n.children| && SmallSibling(n.children[index + 1], threshold) then Some(index)
    else None
  }

  /** A child is merged if and only if it and one of its neighbours are small, with the left one if both are. */
  lemma ChosenIff(n: Node, index: nat, threshold: nat, i: nat)
    requires n.Internal? && index < |n.children|
    ensures ChooseMerge(n, index, threshold) == Some(i) <==>
            && Small(n.children[index], threshold) && i + 1 < |n.children| && (i == index || i + 1 == index)
            && SmallSibling(n.children[if i == index then i + 1 else i], threshold)
            && (i == index && index > 0 ==> !SmallSibling(n.children[index - 1], threshold))
  {
  }

  lemma {:induction false} HiddenAndVisible(slots: seq<Slot>)
    ensures TotalSize(slots) == TotalSize(Visible(slots)) + TotalSize(Hidden(slots))
  {
    if slots != [] {
      HiddenAndVisible(slots[1..]);
      if slots[0].visible {
        assert ([slots[0]] + Visible(slots[1..]))[1..] == Visible(slots[1..]);
      } else {
        assert ([slots[0]] + Hidden(slots[1..]))[1..] == Hidden(slots[1..]);
      }
    }
  }

  lemma {:induction false} TotalSizeConcat(a: seq<Slot>, b: seq<Slot>)
    ensures TotalSize(a + b) == TotalSize(a) + TotalSize(b)
  {
    if a == [] {
      assert a + b == b;
    } else {
      assert (a + b)[1..] == a[1..] + b;
      TotalSizeConcat(a[1..], b);
    }
  }

  lemma {:induction false} PlaceSize(slot: Slot, sorted: seq<Slot>)
    ensures TotalSize(Place(slot, sorted)) == RecordSize(slot) + TotalSize(sorted)
  {
    if sorted != [] && slot.key.rank > sorted[0].key.rank {
      PlaceSize(slot, sorted[1..]);
      assert ([sorted[0]] + Place(slot, sorted[1..]))[1..] == Place(slot, sorted[1..]);
    } else {
      assert ([slot] + sorted)[1..] == sorted;
    }
  }

  lemma {:induction false} SortSize(slots: seq<Slot>)
    ensures TotalSize(Sort(slots)) == TotalSize(slots)
  {
    if slots != [] {
      SortSize(slots[1..]);
      PlaceSize(slots[0], Sort(slots[1..]));
    }
  }

  lemma ValidSizeIsVisible(slots: seq<Slot>)
    ensures HEADER + TotalSize(Visible(slots)) + |Visible(slots)| * WORD <= ValidSize(slots)
  {
    HiddenAndVisible(slots);
  }

  /** The merged leaf fits into a leaf of the usual size. */
  predicate MergeFits(l: Node, r: Node, leafSize: nat)
    requires l.Leaf? && r.Leaf?
  {
    match MergedLeaf(l, r)
    case Leaf(m) => HEADER + |m| * WORD + TotalSize(m) <= leafSize
  }

  lemma SmallLeavesFit(l: Node, r: Node, threshold: nat, leafSize: nat)
    requires l.Leaf? && r.Leaf? && Small(l, threshold) && Small(r, threshold) && 2 * threshold <= leafSize + HEADER
    ensures MergeFits(l, r, leafSize)
  {
    var a, b := l.slots, r.slots;
    ValidSizeIsVisible(a);
    ValidSizeIsVisible(b);
    SortSize(Visible(a));
    SortSize(Visible(b));
    TotalSizeConcat(Sort(Visible(a)), Sort(Visible(b)));
  }

  /** Both children that CheckMerge chooses are small. */
  lemma ChosenSmall(n: Node, index: nat, threshold: nat, i: nat)
    requires n.Internal? && index < |n.children| && ChooseMerge(n, index, threshold) == Some(i)
    ensures i + 1 < |n.children| && Small(n.children[i], threshold) && Small(n.children[i + 1], threshold)
  {
  }

  /** Main result: a leaf merge that CheckMerge chooses fits, if the threshold is half a leaf's room. */
  lemma LeafMergeFits(n: Node, index: nat, threshold: nat, leafSize: nat, i: nat)
    requires n.Internal? && index < |n.children| && ChooseMerge(n, index, threshold) == Some(i)
    requires 2 * threshold <= leafSize + HEADER
    ensures i + 1 < |n.children|
    ensures n.children[i].Leaf? && n.children[i + 1].Leaf? ==> MergeFits(n.children[i], n.children[i + 1], leafSize)
  {
    ChosenSmall(n, index, threshold, i);
    var l, r := n.children[i], n.children[i + 1];
    if l.Leaf? && r.Leaf? {
      SmallLeavesFit(l, r, threshold, leafSize);
    }
  }
}
