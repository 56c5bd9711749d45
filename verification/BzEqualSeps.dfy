/**
  What a merge does to searches when the left node's last separator equals the one between the two
  nodes. The merged node then has two equal separators with an empty range between them, and the
  binary search may stop at either.
*/
module BzEqualSeps {
  import opened Options
  import opened BzNodes
  import opened BzSplit
  import opened BzCascade
  import opened BzLayout
  import opened BzMerge

  /**
    A search for k is lost in the merged node: k is the separator, the left node ends with the same
    one and holds a record for k, and the binary search stops at the second of the two.
  */
  predicate Misses(l: Node, sep: Key, r: Node, k: Key) {
    && l.Internal? && r.Internal? && Shaped(l) && !EndsBelow(l, sep) && k.rank == sep.rank
    && PickChild(Joined(l, sep, r).seps, k) == |l.seps|
    && CodeLookup(l, k).Some?
  }

  // ---------- The joined node ----------

  ghost predicate JoinedOver(l: Node, sep: Key, r: Node, lo: real, hi: real, seps: seq<Key>) {
    && l.Internal? && r.Internal? && Valid(l, lo, sep.rank) && Valid(r, sep.rank, hi)
    && l.seps != [] && l.seps[|l.seps| - 1].rank == sep.rank && seps == Joined(l, sep, r).seps
  }

  lemma JoinedWeakly(l: Node, sep: Key, r: Node, lo: real, hi: real, seps: seq<Key>)
    requires JoinedOver(l, sep, r, lo, hi, seps)
    ensures WeaklySorted(seps)
  {
    var m := |l.seps|;
    forall i, j | 0 <= i < j < |seps|
      ensures seps[i].rank <= seps[j].rank
    {
      assert i < m ==> seps[i] == l.seps[i] && l.seps[i].rank <= sep.rank;
      assert i > m ==> seps[i] == r.seps[i - m - 1] && seps[j] == r.seps[j - m - 1];
      assert j > m ==> seps[j] == r.seps[j - m - 1] && sep.rank < r.seps[j - m - 1].rank;
    }
  }

  /** Where the search goes in the joined node, for each side and for the separator itself. */
  lemma PickInJoined(l: Node, sep: Key, r: Node, lo: real, hi: real, seps: seq<Key>, k: Key)
    requires JoinedOver(l, sep, r, lo, hi, seps)
    ensures k.rank < sep.rank ==> PickChild(seps, k) == PickChild(l.seps, k) < |l.seps|
    ensures k.rank > sep.rank ==> PickChild(seps, k) == |l.seps| + 1 + PickChild(r.seps, k)
    ensures k.rank == sep.rank ==>
              PickChild(l.seps, k) == |l.seps| - 1 && PickChild(seps, k) in {|l.seps| - 1, |l.seps|}
  {
    JoinedWeakly(l, sep, r, lo, hi, seps);
    SearchWeak(seps, k, 0, |seps|);
    SearchSorted(l.seps, k);
    SearchSorted(r.seps, k);
    if k.rank < sep.rank {
      PickLeft(l, sep, r, lo, hi, seps, k);
    } else if k.rank > sep.rank {
      PickRight(l, sep, r, lo, hi, seps, k);
    } else {
      PickBetween(l, sep, r, lo, hi, seps, k);
    }
  }

  lemma PickLeft(l: Node, sep: Key, r: Node, lo: real, hi: real, seps: seq<Key>, k: Key)
    requires JoinedOver(l, sep, r, lo, hi, seps) && WeaklySorted(seps) && k.rank < sep.rank
    requires var p := PickChild(seps, k); p == ChildIndex(seps, k) || (p < |seps| && seps[p].rank == k.rank)
    ensures PickChild(seps, k) == ChildIndex(l.seps, k) < |l.seps|
  {
    var p, m := PickChild(seps, k), |l.seps|;
    assert seps[m - 1] == l.seps[m - 1];
    assert p < m;
    assert seps[p] == l.seps[p] && (p > 0 ==> seps[p - 1] == l.seps[p - 1]);
    ChildIndexUnique(l.seps, k, p);
  }

  lemma PickRight(l: Node, sep: Key, r: Node, lo: real, hi: real, seps: seq<Key>, k: Key)
    requires JoinedOver(l, sep, r, lo, hi, seps) && WeaklySorted(seps) && k.rank > sep.rank
    requires var p := PickChild(seps, k); p == ChildIndex(seps, k) || (p < |seps| && seps[p].rank == k.rank)
    ensures PickChild(seps, k) == |l.seps| + 1 + ChildIndex(r.seps, k)
  {
    var p, m := PickChild(seps, k), |l.seps|;
    assert seps[m] == sep;
    assert p > m;
    assert p < |seps| ==> seps[p] == r.seps[p - m - 1];
    assert p > m + 1 ==> seps[p - 1] == r.seps[p - m - 2];
    ChildIndexUnique(r.seps, k, p - m - 1);
  }

  lemma PickBetween(l: Node, sep: Key, r: Node, lo: real, hi: real, seps: seq<Key>, k: Key)
    requires JoinedOver(l, sep, r, lo, hi, seps) && WeaklySorted(seps) && k.rank == sep.rank
    requires var p := PickChild(seps, k); p == ChildIndex(seps, k) || (p < |seps| && seps[p].rank == k.rank)
    ensures ChildIndex(l.seps, k) == |l.seps| - 1 && PickChild(seps, k) in {|l.seps| - 1, |l.seps|}
  {
    var p, m := PickChild(seps, k), |l.seps|;
    ChildIndexUnique(l.seps, k, m - 1);
    assert seps[m - 1] == l.seps[m - 1] && seps[m] == sep;
    assert m > 1 ==> seps[m - 2] == l.seps[m - 2];
    ChildIndexWeak(seps, k, m - 1);
  }

  /** No key lies in an empty range. */
  lemma NothingBetween(n: Node, at: real, k: Key)
    requires Valid(n, at, at) && Shaped(n)
    ensures CodeLookup(n, k).None?
  {
    CodeLookupIsLookup(n, at, at, k);
    if Lookup(n, k).Some? {
      LookupFindsHeld(n, at, at, k, Lookup(n, k).value);
      HeldInRange(n, at, at, k, Lookup(n, k).value);
    }
  }

  lemma JoinedShaped(l: Node, sep: Key, r: Node)
    requires l.Internal? && r.Internal? && Shaped(l) && Shaped(r)
    ensures Shaped(Joined(l, sep, r))
  {
  }

  /** The answer of the joined node for k is that of the side k belongs to. */
  ghost predicate AnswersAsSide(n: Node, l: Node, sep: Key, r: Node, k: Key) {
    Shaped(n) && Shaped(l) && Shaped(r) && CodeLookup(n, k) == CodeLookup(if k.rank <= sep.rank then l else r, k)
  }

  lemma JoinedInOrder(l: Node, sep: Key, r: Node, lo: real, hi: real, k: Key)
    requires Alike(l, r) && Shaped(l) && Shaped(r) && lo < sep.rank <= hi
    requires Valid(l, lo, sep.rank) && Valid(r, sep.rank, hi) && EndsBelow(l, sep)
    ensures AnswersAsSide(Merged(l, sep, r), l, sep, r, k)
  {
    MergedSplits(l, sep, r, lo, hi, k);
    CodeLookupIsLookup(Merged(l, sep, r), lo, hi, k);
    CodeLookupIsLookup(l, lo, sep.rank, k);
    CodeLookupIsLookup(r, sep.rank, hi, k);
  }

  /** The search stays on the key's own side. */
  lemma SideKept(n: Node, l: Node, sep: Key, r: Node, k: Key)
    requires l.Internal? && r.Internal? && n == Joined(l, sep, r) && Shaped(n) && Shaped(l) && Shaped(r)
    requires k.rank <= sep.rank ==> PickChild(n.seps, k) == PickChild(l.seps, k)
    requires k.rank > sep.rank ==> PickChild(n.seps, k) == |l.seps| + 1 + PickChild(r.seps, k)
    ensures AnswersAsSide(n, l, sep, r, k)
  {
    var p := PickChild(n.seps, k);
    assert CodeLookup(n, k) == CodeLookup(n.children[p], k);
    if k.rank <= sep.rank {
      assert n.children[p] == l.children[p];
    } else {
      assert n.children[p] == r.children[p - |l.seps| - 1];
    }
  }

  /** The search goes to the left node's last child instead. */
  lemma SideMissed(n: Node, l: Node, sep: Key, r: Node, k: Key)
    requires l.Internal? && r.Internal? && n == Joined(l, sep, r) && Shaped(n) && Shaped(l) && Shaped(r)
    requires k.rank <= sep.rank && PickChild(n.seps, k) == |l.seps| && CodeLookup(l.children[|l.seps|], k).None?
    ensures AnswersAsSide(n, l, sep, r, k) <==> CodeLookup(l, k).None?
  {
    assert n.children[|l.seps|] == l.children[|l.seps|];
  }

  lemma LastChildEmpty(l: Node, sep: Key, lo: real, k: Key)
    requires l.Internal? && Valid(l, lo, sep.rank) && Shaped(l)
    requires l.seps != [] && l.seps[|l.seps| - 1].rank == sep.rank
    ensures CodeLookup(l.children[|l.seps|], k).None?
  {
    var m := |l.seps|;
    assert Valid(l.children[m], LowAt(l.seps, m, lo), HighAt(l.seps, m, sep.rank));
    NothingBetween(l.children[m], sep.rank, k);
  }

  lemma JoinedOverEqual(l: Node, sep: Key, r: Node, lo: real, hi: real, k: Key, n: Node)
    requires l.Internal? && r.Internal? && JoinedOver(l, sep, r, lo, hi, Joined(l, sep, r).seps)
    requires n == Joined(l, sep, r) && Shaped(l) && Shaped(r) && Shaped(n)
    ensures AnswersAsSide(n, l, sep, r, k) <==> !Misses(l, sep, r, k)
  {
    PickInJoined(l, sep, r, lo, hi, n.seps, k);
    if k.rank == sep.rank && PickChild(n.seps, k) == |l.seps| {
      LastChildEmpty(l, sep, lo, k);
      SideMissed(n, l, sep, r, k);
    } else {
      SideKept(n, l, sep, r, k);
    }
  }

  /** Main result: a merged node answers a key as its side did exactly when the key is not missed. */
  lemma MergedAnswersIff(l: Node, sep: Key, r: Node, lo: real, hi: real, k: Key)
    requires Alike(l, r) && Shaped(l) && Shaped(r) && lo < sep.rank <= hi
    requires Valid(l, lo, sep.rank) && Valid(r, sep.rank, hi)
    ensures Shaped(Merged(l, sep, r))
    ensures AnswersAsSide(Merged(l, sep, r), l, sep, r, k) <==> !Misses(l, sep, r, k)
  {
    if EndsBelow(l, sep) {
      JoinedInOrder(l, sep, r, lo, hi, k);
    } else {
      JoinedShaped(l, sep, r);
      JoinedOverEqual(l, sep, r, lo, hi, k, Merged(l, sep, r));
    }
  }

  // ---------- The parent, and the tree above it ----------

  ghost predicate SameFound(a: Node, b: Node, k: Key) {
    Shaped(a) && Shaped(b) && CodeLookup(a, k) == CodeLookup(b, k)
  }

  lemma DroppedShaped(n: Node, i: nat, child: Node)
    requires n.Internal? && Shaped(n) && i < |n.seps| && Shaped(child)
    ensures Shaped(Dropped(n, i, child))
  {
    var n' := Dropped(n, i, child);
    forall j | 0 <= j < |n'.children|
      ensures Shaped(n'.children[j])
    {
      assert n'.children[j] == if j < i then n.children[j] else if j == i then child else n.children[j + 1];
    }
  }

  /** The search in the parent of the merged child, and the one before the merge. */
  ghost predicate Corresponds(n: Node, i: nat, n': Node, k: Key, c: nat, c': nat) {
    && n.Internal? && n'.Internal? && i < |n.seps| && |n.children| == |n.seps| + 1
    && c == PickChild(n.seps, k) < |n.children| && c' == PickChild(n'.seps, k) < |n'.children|
    && (c' == i ==> c == if k.rank <= n.seps[i].rank then i else i + 1)
    && (c' != i ==> n'.children[c'] == n.children[c] && k.rank != n.seps[i].rank)
  }

  lemma PicksCorrespond(n: Node, i: nat, l: Node, r: Node, n': Node, k: Key)
    requires n.Internal? && i < |n.seps| && Inserted(n', i, n.seps[i], l, r, n)
    ensures Corresponds(n, i, n', k, PickChild(n.seps, k), PickChild(n'.seps, k))
  {
    InsertedSorted(n', i, n.seps[i], l, r, n);
    InsertedIndex(n', i, n.seps[i], l, r, n, k);
    SearchSorted(n.seps, k);
    SearchSorted(n'.seps, k);
    if k.rank == n.seps[i].rank {
      ChildIndexUnique(n.seps, k, i);
    }
  }

  lemma ParentFoundIff(n: Node, i: nat, child: Node, n': Node, k: Key, c: nat, c': nat)
    requires Corresponds(n, i, n', k, c, c') && Shaped(n) && Shaped(n') && Shaped(child)
    requires i < |n'.children| && n'.children[i] == child
    ensures k.rank == n.seps[i].rank ==>
              (SameFound(n, n', k) <==> AnswersAsSide(child, n.children[i], n.seps[i], n.children[i + 1], k))
    ensures AnswersAsSide(child, n.children[i], n.seps[i], n.children[i + 1], k) ==> SameFound(n, n', k)
  {
    assert CodeLookup(n, k) == CodeLookup(n.children[c], k);
    assert CodeLookup(n', k) == CodeLookup(n'.children[c'], k);
  }

  lemma MergeAtFoundIff(n: Node, i: nat, lo: real, hi: real, k: Key)
    requires n.Internal? && Valid(n, lo, hi) && Shaped(n) && i < |n.seps| && Alike(n.children[i], n.children[i + 1])
    ensures SameFound(n, MergeAt(n, i), k) <==> !Misses(n.children[i], n.seps[i], n.children[i + 1], k)
    ensures Shaped(MergeAt(n, i))
  {
    var l, sep, r := n.children[i], n.seps[i], n.children[i + 1];
    assert Valid(l, LowAt(n.seps, i, lo), sep.rank) && Valid(r, sep.rank, HighAt(n.seps, i + 1, hi));
    assert LowAt(n.seps, i, lo) < sep.rank <= HighAt(n.seps, i + 1, hi);
    MergedAnswersIff(l, sep, r, LowAt(n.seps, i, lo), HighAt(n.seps, i + 1, hi), k);
    DroppedInserts(n, i, Merged(l, sep, r));
    DroppedShaped(n, i, Merged(l, sep, r));
    var n' := MergeAt(n, i);
    PicksCorrespond(n, i, l, r, n', k);
    ParentFoundIff(n, i, Merged(l, sep, r), n', k, PickChild(n.seps, k), PickChild(n'.seps, k));
  }

  lemma SetChildShaped(f: Frame, a: Node)
    requires FrameOk(f) && Shaped(a)
    ensures Shaped(SetChild(f, a))
  {
  }

  lemma SetChildFound(f: Frame, a: Node, b: Node, lo: real, hi: real, k: Key)
    requires FrameOk(f) && Sorted(f.node.seps) && Shaped(a) && Shaped(b)
    ensures Shaped(SetChild(f, a)) && Shaped(SetChild(f, b))
    ensures SameFound(a, b, k) ==> SameFound(SetChild(f, a), SetChild(f, b), k)
    ensures LowAt(f.node.seps, f.index, lo) < k.rank <= HighAt(f.node.seps, f.index, hi) ==>
              (SameFound(SetChild(f, a), SetChild(f, b), k) ==> SameFound(a, b, k))
  {
    var fa, fb := SetChild(f, a), SetChild(f, b);
    SetChildShaped(f, a);
    SetChildShaped(f, b);
    var c := PickChild(f.node.seps, k);
    assert fa.children[c] == if c == f.index then a else f.node.children[c];
    assert fb.children[c] == if c == f.index then b else f.node.children[c];
    if LowAt(f.node.seps, f.index, lo) < k.rank <= HighAt(f.node.seps, f.index, hi) {
      SearchSorted(f.node.seps, k);
      ChildIndexUnique(f.node.seps, k, f.index);
    }
  }

  /** Replacing the end of a stack changes what is found exactly as it changes it there. */
  lemma {:induction false} PlugFound(stack: seq<Frame>, a: Node, b: Node, lo: real, hi: real, k: Key)
    requires StackOk(stack) && Valid(Plug(stack, a), lo, hi) && Shaped(a) && Shaped(b)
    ensures SameFound(a, b, k) ==> SameFound(Plug(stack, a), Plug(stack, b), k)
    ensures InHole(stack, lo, hi, k) ==> (SameFound(Plug(stack, a), Plug(stack, b), k) ==> SameFound(a, b, k))
    decreases |stack|
  {
    if stack != [] {
      var f, h := Top(stack), Hole(Rest(stack), lo, hi);
      PlugValid(Rest(stack), SetChild(f, a), SetChild(f, b), lo, hi);
      SetChildFound(f, a, b, h.0, h.1, k);
      PlugFound(Rest(stack), SetChild(f, a), SetChild(f, b), lo, hi, k);
    }
  }

  /** A key within the bounds of every node on the stack. */
  ghost predicate InHole(stack: seq<Frame>, lo: real, hi: real, k: Key)
    requires StackOk(stack)
    decreases |stack|
  {
    var h := Hole(stack, lo, hi);
    h.0 < k.rank <= h.1 && (stack != [] ==> InHole(Rest(stack), lo, hi, k))
  }

  /** The bounds narrow on the way down. */
  lemma {:induction false} HoleNarrows(stack: seq<Frame>, a: Node, lo: real, hi: real, k: Key)
    requires StackOk(stack) && Valid(Plug(stack, a), lo, hi) && Hole(stack, lo, hi).0 < k.rank <= Hole(stack, lo, hi).1
    ensures InHole(stack, lo, hi, k)
    decreases |stack|
  {
    if stack != [] {
      var f, h := Top(stack), Hole(Rest(stack), lo, hi);
      PlugValid(Rest(stack), SetChild(f, a), SetChild(f, a), lo, hi);
      assert SetChild(f, a).seps == f.node.seps;
      HoleNarrows(Rest(stack), SetChild(f, a), lo, hi, k);
    }
  }

  /**
    Main result: a merge anywhere in a valid tree, by siblings of any kind, keeps the answer to a
    key if and only if the merged node does not miss that key.
  */
  lemma MergeKeepsIff(stack: seq<Frame>, n: Node, i: nat, lo: real, hi: real, k: Key)
    requires StackOk(stack) && n.Internal? && Shaped(n) && Valid(Plug(stack, n), lo, hi) && i + 1 < |n.children|
    requires Alike(n.children[i], n.children[i + 1])
    ensures SameFound(Plug(stack, n), Plug(stack, MergeAt(n, i)), k)
            <==> !Misses(n.children[i], n.seps[i], n.children[i + 1], k)
  {
    var h := Hole(stack, lo, hi);
    PlugValid(stack, n, n, lo, hi);
    MergeAtFoundIff(n, i, h.0, h.1, k);
    PlugFound(stack, n, MergeAt(n, i), lo, hi, k);
    if Misses(n.children[i], n.seps[i], n.children[i + 1], k) {
      HoleNarrows(stack, n, lo, hi, k);
    }
  }
}
