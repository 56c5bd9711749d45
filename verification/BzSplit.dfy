/**
  Splitting a leaf, with the splits of internal nodes it causes up the stack of ancestors.
  Internal nodes are rebuilt, never edited, so a tree is a value; an ancestor's child pointer is
  the only thing replaced in place.
*/
module BzSplit {
  import opened Options
  import opened BzNodes

  const HEADER := 32
  const WORD := 8

  function Pad(size: nat): nat {
    (size + WORD - 1) / WORD * WORD
  }

  function Padded(seps: seq<Key>): nat {
    if seps == [] then 0 else Pad(seps[0].size) + Padded(seps[1..])
  }

  /** The size of an internal node: per entry a metadata word, the padded key and a child pointer. */
  function NodeSize(n: Node): nat
    requires n.Internal?
  {
    HEADER + |n.children| * (WORD + WORD) + Padded(n.seps)
  }

  function RecordSize(slot: Slot): nat {
    Pad(slot.key.size) + WORD
  }

  // ---------- Sorting the visible records of a frozen leaf ----------

  function Visible(slots: seq<Slot>): (v: seq<Slot>)
    ensures forall s :: s in v <==> s in slots && s.visible
    ensures |v| <= |slots|
  {
    if slots == [] then []
    else if slots[0].visible then [slots[0]] + Visible(slots[1..])
    else Visible(slots[1..])
  }

  predicate InOrder(slots: seq<Slot>) {
    forall i, j :: 0 <= i < j < |slots| ==> slots[i].key.rank < slots[j].key.rank
  }

  function Place(slot: Slot, sorted: seq<Slot>): (r: seq<Slot>)
    ensures |r| == |sorted| + 1 && forall s :: s in r <==> s == slot || s in sorted
  {
    if sorted == [] || slot.key.rank <= sorted[0].key.rank then [slot] + sorted
    else
      var rest := Place(slot, sorted[1..]);
      assert forall s :: s in sorted <==> s == sorted[0] || s in sorted[1..];
      [sorted[0]] + rest
  }

  /** SortMetadataByKey. */
  function Sort(slots: seq<Slot>): (r: seq<Slot>)
    ensures |r| == |slots| && forall s :: s in r <==> s in slots
  {
    if slots == [] then []
    else
      assert forall s :: s in slots <==> s == slots[0] || s in slots[1..];
      Place(slots[0], Sort(slots[1..]))
  }

  lemma {:induction false} PlaceInOrder(slot: Slot, sorted: seq<Slot>)
    requires InOrder(sorted) && forall s :: s in sorted ==> s.key.rank != slot.key.rank
    ensures InOrder(Place(slot, sorted))
  {
    if sorted != [] && slot.key.rank > sorted[0].key.rank {
      PlaceInOrder(slot, sorted[1..]);
      var rest := Place(slot, sorted[1..]);
      assert forall j :: 0 <= j < |rest| ==> rest[j] in rest;
    }
  }

  lemma {:induction false} SortInOrder(slots: seq<Slot>)
    requires forall i, j :: 0 <= i < j < |slots| ==> slots[i].key.rank != slots[j].key.rank
    ensures InOrder(Sort(slots))
  {
    if slots != [] {
      SortInOrder(slots[1..]);
      forall s | s in Sort(slots[1..])
        ensures s.key.rank != slots[0].key.rank
      {
        assert s in slots[1..];
      }
      PlaceInOrder(slots[0], Sort(slots[1..]));
    }
  }

  lemma {:induction false} VisibleUnique(slots: seq<Slot>)
    requires UniqueKeys(slots)
    ensures forall i, j :: 0 <= i < j < |Visible(slots)| ==> Visible(slots)[i].key.rank != Visible(slots)[j].key.rank
  {
    if slots != [] {
      VisibleUnique(slots[1..]);
      if slots[0].visible {
        var rest := Visible(slots[1..]);
        forall j | 0 <= j < |rest|
          ensures rest[j].key.rank != slots[0].key.rank
        {
          assert rest[j] in rest && rest[j] in slots[1..];
        }
      }
    }
  }

  /** The records Consolidate copies: those visible, in key order. */
  lemma SortedRecords(slots: seq<Slot>)
    requires UniqueKeys(slots)
    ensures InOrder(Sort(Visible(slots)))
    ensures forall s :: s in Sort(Visible(slots)) <==> s in slots && s.visible
  {
    VisibleUnique(slots);
    SortInOrder(Visible(slots));
  }

  // ---------- Where a leaf is split ----------

  function TotalSize(slots: seq<Slot>): nat {
    if slots == [] then 0 else RecordSize(slots[0]) + TotalSize(slots[1..])
  }

  /** How many records go left: the fewest whose sizes reach the budget. */
  function LeftCount(slots: seq<Slot>, budget: int): nat {
    if slots == [] then 0
    else if budget - RecordSize(slots[0]) <= 0 then 1
    else 1 + LeftCount(slots[1..], budget - RecordSize(slots[0]))
  }

  method SplitPoint(sorted: seq<Slot>) returns (nleft: nat)
    ensures nleft == LeftCount(sorted, TotalSize(sorted) / 2)
  {
    var leftSize: int := TotalSize(sorted) / 2;
    nleft := 0;
    for i := 0 to |sorted|
      invariant nleft == i
      invariant LeftCount(sorted, TotalSize(sorted) / 2) == i + LeftCount(sorted[i..], leftSize)
    {
      nleft := nleft + 1;
      leftSize := leftSize - RecordSize(sorted[i]);
      if leftSize <= 0 {
        break;
      }
    }
  }

  /** The left half is the shortest prefix that holds half of the bytes. */
  lemma {:induction false} LeftCountBalances(slots: seq<Slot>, budget: int)
    requires slots != [] && budget <= TotalSize(slots)
    ensures 0 < LeftCount(slots, budget) <= |slots|
    ensures budget <= TotalSize(slots[..LeftCount(slots, budget)])
    ensures LeftCount(slots, budget) > 1 ==> TotalSize(slots[..LeftCount(slots, budget) - 1]) < budget
  {
    var b := budget - RecordSize(slots[0]);
    var n := LeftCount(slots, budget);
    if b > 0 {
      LeftCountBalances(slots[1..], b);
      assert slots[..n][1..] == slots[1..][..n - 1];
      if n > 2 {
        assert slots[..n - 1][1..] == slots[1..][..n - 2];
      } else {
        assert slots[..1] == [slots[0]] && slots[..1][1..] == [];
      }
    } else {
      assert slots[..1] == [slots[0]] && slots[..1][1..] == [];
    }
  }

  lemma {:induction false} PrefixSize(slots: seq<Slot>, a: nat, b: nat)
    requires a <= b <= |slots|
    ensures TotalSize(slots[..a]) <= TotalSize(slots[..b])
  {
    if a > 0 {
      assert slots[..a][1..] == slots[1..][..a - 1] && slots[..b][1..] == slots[1..][..b - 1];
      PrefixSize(slots[1..], a - 1, b - 1);
    }
  }

  /** The right half is empty exactly when all records but the last do not reach half of the bytes. */
  lemma RightEmptyIff(sorted: seq<Slot>)
    requires sorted != []
    ensures LeftCount(sorted, TotalSize(sorted) / 2) == |sorted|
            <==> TotalSize(sorted[..|sorted| - 1]) < TotalSize(sorted) / 2
  {
    if |sorted| == 1 {
      OneRecord(sorted);
    } else {
      LastDecides(sorted, TotalSize(sorted) / 2);
    }
  }

  lemma LastDecides(sorted: seq<Slot>, budget: int)
    requires |sorted| > 1 && budget <= TotalSize(sorted)
    ensures LeftCount(sorted, budget) == |sorted| <==> TotalSize(sorted[..|sorted| - 1]) < budget
  {
    var n := LeftCount(sorted, budget);
    LeftCountBalances(sorted, budget);
    if n < |sorted| {
      PrefixSize(sorted, n, |sorted| - 1);
    }
  }

  lemma OneRecord(sorted: seq<Slot>)
    requires |sorted| == 1
    ensures TotalSize(sorted[..0]) < TotalSize(sorted) / 2 && LeftCount(sorted, TotalSize(sorted) / 2) == 1
  {
    LeftCountBalances(sorted, TotalSize(sorted) / 2);
    assert TotalSize(sorted) == RecordSize(sorted[0]) + TotalSize(sorted[1..]) >= WORD;
  }

  // ---------- What a split must do ----------

  /** A search for k is answered by l or r, whichever side of sep it falls on, as c answered it. */
  ghost predicate Splits(c: Node, sep: Key, l: Node, r: Node, k: Key) {
    && Shaped(c) && Shaped(l) && Shaped(r)
    && Lookup(c, k) == Lookup(if k.rank <= sep.rank then l else r, k)
  }

  ghost predicate SameAnswer(a: Node, b: Node, k: Key) {
    Shaped(a) && Shaped(b) && Lookup(a, k) == Lookup(b, k)
  }

  lemma SearchSame(a: seq<Slot>, b: seq<Slot>, key: Key)
    requires UniqueKeys(a) && UniqueKeys(b)
    requires forall s :: Matches(s, key) ==> (s in a <==> s in b)
    ensures Search(a, key) == Search(b, key)
  {
    if Search(a, key).Some? {
      var i :| 0 <= i < |a| && Matches(a[i], key) && a[i].payload == Search(a, key).value;
      assert a[i] in b;
    }
  }

  function LeafHalves(slots: seq<Slot>): (Node, Node, Key)
    requires Visible(slots) != []
  {
    var sorted := Sort(Visible(slots));
    var n := LeftCount(sorted, TotalSize(sorted) / 2);
    LeftCountBalances(sorted, TotalSize(sorted) / 2);
    (Leaf(sorted[..n]), Leaf(sorted[n..]), sorted[n - 1].key)
  }

  /** Search in one side of a cut sorted sequence. */
  lemma SearchCut(slots: seq<Slot>, sorted: seq<Slot>, n: nat, key: Key)
    requires UniqueKeys(slots) && InOrder(sorted) && 0 < n <= |sorted|
    requires forall s :: s in sorted <==> s in slots && s.visible
    ensures Search(slots, key) == Search(if key.rank <= sorted[n - 1].key.rank then sorted[..n] else sorted[n..], key)
  {
    var side := if key.rank <= sorted[n - 1].key.rank then sorted[..n] else sorted[n..];
    forall s | Matches(s, key)
      ensures s in slots <==> s in side
    {
      if s in sorted {
        var i :| 0 <= i < |sorted| && sorted[i] == s;
        if key.rank <= sorted[n - 1].key.rank {
          assert i < n && side[i] == s;
        } else {
          assert n <= i && side[i - n] == s;
        }
      }
    }
    SearchSame(slots, side, key);
  }

  lemma SortedValid(sorted: seq<Slot>, lo: real, hi: real)
    requires InOrder(sorted) && forall s :: s in sorted ==> lo < s.key.rank <= hi
    ensures Valid(Leaf(sorted), lo, hi)
  {
    assert forall i :: 0 <= i < |sorted| ==> sorted[i] in sorted;
  }

  lemma CutLeafValid(sorted: seq<Slot>, n: nat, lo: real, hi: real)
    requires InOrder(sorted) && 0 < n <= |sorted|
    requires forall s :: s in sorted ==> lo < s.key.rank <= hi
    ensures var sep := sorted[n - 1].key;
            && Valid(Leaf(sorted[..n]), lo, sep.rank) && Valid(Leaf(sorted[n..]), sep.rank, hi)
            && lo < sep.rank <= hi
  {
    assert forall i :: 0 <= i < |sorted| ==> sorted[i] in sorted;
    SortedValid(sorted[..n], lo, sorted[n - 1].key.rank);
    SortedValid(sorted[n..], sorted[n - 1].key.rank, hi);
  }

  lemma CutLeafSplits(slots: seq<Slot>, sorted: seq<Slot>, n: nat, lo: real, hi: real, k: Key)
    requires Valid(Leaf(slots), lo, hi) && InOrder(sorted) && 0 < n <= |sorted|
    requires forall s :: s in sorted <==> s in slots && s.visible
    ensures var (l, r, sep) := (Leaf(sorted[..n]), Leaf(sorted[n..]), sorted[n - 1].key);
            Splits(Leaf(slots), sep, l, r, k) && Valid(l, lo, sep.rank) && Valid(r, sep.rank, hi) && lo < sep.rank <= hi
  {
    SearchCut(slots, sorted, n, k);
    CutLeafValid(sorted, n, lo, hi);
  }

  /** A leaf split divides the records at the separator, which is the largest key on the left. */
  lemma LeafSplits(slots: seq<Slot>, lo: real, hi: real, k: Key)
    requires Valid(Leaf(slots), lo, hi) && Visible(slots) != []
    ensures var (l, r, sep) := LeafHalves(slots);
            Splits(Leaf(slots), sep, l, r, k) && Valid(l, lo, sep.rank) && Valid(r, sep.rank, hi) && lo < sep.rank <= hi
  {
    var sorted := Sort(Visible(slots));
    LeftCountBalances(sorted, TotalSize(sorted) / 2);
    SortedRecords(slots);
    CutLeafSplits(slots, sorted, LeftCount(sorted, TotalSize(sorted) / 2), lo, hi, k);
  }

  // ---------- Adding a separator to an internal node ----------

  /** Child i gives way to l and r, divided by sep. */
  function InsertAt(n: Node, i: nat, sep: Key, l: Node, r: Node): Node
    requires n.Internal? && i <= |n.seps| && |n.children| == |n.seps| + 1
  {
    Internal(n.seps[..i] + [sep] + n.seps[i..], n.children[..i] + [l, r] + n.children[i + 1..])
  }

  /** The separator lies strictly between its neighbours. */
  predicate Fits(seps: seq<Key>, i: nat, sep: Key) {
    i <= |seps| && (i > 0 ==> seps[i - 1].rank < sep.rank) && (i < |seps| ==> sep.rank < seps[i].rank)
  }

  /** InsertAt, read position by position. */
  ghost predicate Inserted(n: Node, i: nat, sep: Key, l: Node, r: Node, n': Node) {
    && n.Internal? && n'.Internal? && Sorted(n.seps) && Fits(n.seps, i, sep)
    && |n.children| == |n.seps| + 1 && |n'.seps| == |n.seps| + 1 && |n'.children| == |n.children| + 1
    && (forall j {:trigger n'.seps[j]} :: 0 <= j < i ==> n'.seps[j] == n.seps[j])
    && (forall j {:trigger n'.children[j]} :: 0 <= j < i ==> n'.children[j] == n.children[j])
    && n'.seps[i] == sep && n'.children[i] == l && n'.children[i + 1] == r
    && (forall j {:trigger n'.seps[j]} :: i < j < |n'.seps| ==> n'.seps[j] == n.seps[j - 1])
    && (forall j {:trigger n'.children[j]} :: i + 1 < j < |n'.children| ==> n'.children[j] == n.children[j - 1])
  }

  lemma InsertAtInserts(n: Node, i: nat, sep: Key, l: Node, r: Node)
    requires n.Internal? && |n.children| == |n.seps| + 1 && Sorted(n.seps) && Fits(n.seps, i, sep)
    ensures Inserted(n, i, sep, l, r, InsertAt(n, i, sep, l, r))
  {
  }

  lemma InsertedSorted(n: Node, i: nat, sep: Key, l: Node, r: Node, n': Node)
    requires Inserted(n, i, sep, l, r, n')
    ensures Sorted(n'.seps)
    ensures Shaped(n) && Shaped(l) && Shaped(r) ==> Shaped(n')
  {
    SepsAfterInsert(n.seps, n'.seps, i, sep);
    if Shaped(n) && Shaped(l) && Shaped(r) {
      forall j | 0 <= j < |n'.children|
        ensures Shaped(n'.children[j])
      {
        assert n'.children[j] == if j < i then n.children[j] else if j == i then l
                                 else if j == i + 1 then r else n.children[j - 1];
      }
    }
  }

  lemma SepsAfterInsert(seps: seq<Key>, seps': seq<Key>, i: nat, sep: Key)
    requires Sorted(seps) && Fits(seps, i, sep) && |seps'| == |seps| + 1 && seps'[i] == sep
    requires forall j {:trigger seps'[j]} :: 0 <= j < i ==> seps'[j] == seps[j]
    requires forall j {:trigger seps'[j]} :: i < j < |seps'| ==> seps'[j] == seps[j - 1]
    ensures Sorted(seps')
  {
    forall a, b | 0 <= a < b < |seps'|
      ensures seps'[a].rank < seps'[b].rank
    {
      assert a < i ==> a == i - 1 || seps[a].rank < seps[i - 1].rank;
      assert b > i ==> b == i + 1 || seps[i].rank < seps[b - 1].rank;
    }
  }

  lemma IndexAfterInsert(seps: seq<Key>, seps': seq<Key>, i: nat, k: Key)
    requires Sorted(seps') && |seps'| == |seps| + 1 && i <= |seps|
    requires forall j {:trigger seps'[j]} :: 0 <= j < i ==> seps'[j] == seps[j]
    requires forall j {:trigger seps'[j]} :: i < j < |seps'| ==> seps'[j] == seps[j - 1]
    ensures var c := ChildIndex(seps, k);
            ChildIndex(seps', k) == if c < i || (c == i && k.rank <= seps'[i].rank) then c else c + 1
  {
    var c := ChildIndex(seps, k);
    if c < i || (c == i && k.rank <= seps'[i].rank) {
      assert c > 0 ==> seps'[c - 1] == seps[c - 1];
      ChildIndexUnique(seps', k, c);
    } else {
      assert c > i ==> seps'[c] == seps[c - 1];
      ChildIndexUnique(seps', k, c + 1);
    }
  }

  lemma InsertedIndex(n: Node, i: nat, sep: Key, l: Node, r: Node, n': Node, k: Key)
    requires Inserted(n, i, sep, l, r, n')
    ensures var c := ChildIndex(n.seps, k);
            ChildIndex(n'.seps, k) == if c < i || (c == i && k.rank <= sep.rank) then c else c + 1
  {
    InsertedSorted(n, i, sep, l, r, n');
    IndexAfterInsert(n.seps, n'.seps, i, k);
  }

  /** Replacing a child by its two halves changes no answer. */
  lemma InsertedLookup(n: Node, i: nat, sep: Key, l: Node, r: Node, n': Node, k: Key)
    requires Inserted(n, i, sep, l, r, n') && Shaped(n) && Splits(n.children[i], sep, l, r, k)
    ensures SameAnswer(n, n', k)
  {
    InsertedSorted(n, i, sep, l, r, n');
    InsertedIndex(n, i, sep, l, r, n', k);
    var c, c' := ChildIndex(n.seps, k), ChildIndex(n'.seps, k);
    assert n'.children[c'] == if c != i then n.children[c] else if k.rank <= sep.rank then l else r;
  }

  lemma InsertedValid(n: Node, i: nat, sep: Key, l: Node, r: Node, n': Node, lo: real, hi: real)
    requires Inserted(n, i, sep, l, r, n') && Valid(n, lo, hi) && lo < sep.rank <= hi
    requires Valid(l, LowAt(n.seps, i, lo), sep.rank) && Valid(r, sep.rank, HighAt(n.seps, i, hi))
    ensures Valid(n', lo, hi)
  {
    InsertedSorted(n, i, sep, l, r, n');
    forall j | 0 <= j < |n'.children|
      ensures Valid(n'.children[j], LowAt(n'.seps, j, lo), HighAt(n'.seps, j, hi))
    {
      if j < i {
        assert Valid(n.children[j], LowAt(n.seps, j, lo), HighAt(n.seps, j, hi));
      } else if j > i + 1 {
        assert Valid(n.children[j - 1], LowAt(n.seps, j - 1, lo), HighAt(n.seps, j - 1, hi));
      }
    }
  }

  // ---------- Cutting an internal node in two ----------

  function CutLeft(n: Node, m: nat): Node
    requires n.Internal? && 0 < m <= |n.seps| && |n.children| == |n.seps| + 1
  {
    Internal(n.seps[..m - 1], n.children[..m])
  }

  function CutRight(n: Node, m: nat): Node
    requires n.Internal? && 0 < m <= |n.seps| && |n.children| == |n.seps| + 1
  {
    Internal(n.seps[m..], n.children[m..])
  }

  /** Node n is l and r joined by its separator m - 1. */
  ghost predicate IsCut(n: Node, m: nat, l: Node, r: Node) {
    && n.Internal? && l.Internal? && r.Internal? && Sorted(n.seps) && 0 < m <= |n.seps|
    && |n.children| == |n.seps| + 1 && |l.seps| == m - 1 && |l.children| == m
    && |r.seps| == |n.seps| - m && |r.children| == |n.children| - m
    && (forall j {:trigger l.seps[j]} :: 0 <= j < m - 1 ==> l.seps[j] == n.seps[j])
    && (forall j {:trigger l.children[j]} :: 0 <= j < m ==> l.children[j] == n.children[j])
    && (forall j {:trigger r.seps[j]} :: 0 <= j < |r.seps| ==> r.seps[j] == n.seps[j + m])
    && (forall j {:trigger r.children[j]} :: 0 <= j < |r.children| ==> r.children[j] == n.children[j + m])
  }

  lemma CutIsCut(n: Node, m: nat)
    requires n.Internal? && |n.children| == |n.seps| + 1 && Sorted(n.seps) && 0 < m <= |n.seps|
    ensures IsCut(n, m, CutLeft(n, m), CutRight(n, m))
  {
  }

  lemma CutIndexLeft(seps: seq<Key>, m: nat, ls: seq<Key>, k: Key)
    requires Sorted(seps) && 0 < m <= |seps| && |ls| == m - 1 && k.rank <= seps[m - 1].rank
    requires forall j {:trigger ls[j]} :: 0 <= j < |ls| ==> ls[j] == seps[j]
    ensures ChildIndex(seps, k) < m && ChildIndex(ls, k) == ChildIndex(seps, k)
  {
    ChildIndexUnique(ls, k, ChildIndex(seps, k));
  }

  lemma CutIndexRight(seps: seq<Key>, m: nat, rs: seq<Key>, k: Key)
    requires Sorted(seps) && 0 < m <= |seps| && |rs| == |seps| - m && k.rank > seps[m - 1].rank
    requires forall j {:trigger rs[j]} :: 0 <= j < |rs| ==> rs[j] == seps[j + m]
    ensures ChildIndex(seps, k) >= m && ChildIndex(rs, k) == ChildIndex(seps, k) - m
  {
    var c := ChildIndex(seps, k);
    assert c >= m;
    assert c > m ==> rs[c - m - 1] == seps[c - 1];
    ChildIndexUnique(rs, k, c - m);
  }

  lemma CutShaped(n: Node, m: nat, l: Node, r: Node)
    requires IsCut(n, m, l, r) && Shaped(n)
    ensures Shaped(l) && Shaped(r)
  {
  }

  lemma CutSplits(n: Node, m: nat, l: Node, r: Node, k: Key)
    requires IsCut(n, m, l, r) && Shaped(n)
    ensures Splits(n, n.seps[m - 1], l, r, k)
  {
    CutShaped(n, m, l, r);
    var c := ChildIndex(n.seps, k);
    if k.rank <= n.seps[m - 1].rank {
      CutIndexLeft(n.seps, m, l.seps, k);
      assert l.children[c] == n.children[c];
    } else {
      CutIndexRight(n.seps, m, r.seps, k);
      assert r.children[c - m] == n.children[c];
    }
  }

  lemma CutValid(n: Node, m: nat, l: Node, r: Node, lo: real, hi: real)
    requires IsCut(n, m, l, r) && Valid(n, lo, hi)
    ensures Valid(l, lo, n.seps[m - 1].rank) && Valid(r, n.seps[m - 1].rank, hi)
  {
    var mid := n.seps[m - 1].rank;
    forall j | 0 <= j < |l.children|
      ensures Valid(l.children[j], LowAt(l.seps, j, lo), HighAt(l.seps, j, mid))
    {
      assert Valid(n.children[j], LowAt(n.seps, j, lo), HighAt(n.seps, j, hi));
    }
    forall j | 0 <= j < |r.children|
      ensures Valid(r.children[j], LowAt(r.seps, j, mid), HighAt(r.seps, j, hi))
    {
      assert Valid(n.children[m + j], LowAt(n.seps, m + j, lo), HighAt(n.seps, m + j, hi));
    }
  }
}
