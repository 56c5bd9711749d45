/**
  Two failures, reached from an empty tree by inserts and a delete: an insert that aborts on a
  separator it finds already there, and a merge after which a record is no longer found.
*/
module BzWitness {
  import KeyOrder
  import opened Options
  import opened BzNodes
  import opened BzSplit
  import opened BzCascade
  import opened BzInsert
  import opened BzLayout
  import opened BzMerge
  import opened BzEqualSeps
  import opened BzRuns

  const SPLIT := 208
  const MERGE := 200

  /** The keys of the run: a < b < y < s < x1 < ... < x6. */
  datatype Cast = Cast(a: Key, b: Key, y: Key, s: Key, x1: Key, x2: Key, x3: Key, x4: Key, x5: Key, x6: Key)

  /** All that matters of the keys is their order and their sizes. */
  predicate Ready(c: Cast) {
    && 0.0 < c.a.rank < c.b.rank < c.y.rank < c.s.rank < c.x1.rank < c.x2.rank
    && c.x2.rank < c.x3.rank < c.x4.rank < c.x5.rank < c.x6.rank <= 1.0
    && c.a.size == c.b.size == 16 && c.s.size == 48
    && c.y.size == c.x1.size == c.x2.size == c.x3.size == c.x4.size == c.x5.size == c.x6.size == 40
  }

  // ---------- Keys made of bytes ----------

  function Text(b: KeyOrder.Byte, n: nat): KeyOrder.Bytes { seq(n, i => b) }

  /** The key is one the tree can be given: not empty, with bytes below 0x80. */
  ghost predicate FromBytes(key: Key) {
    exists bytes :: bytes != [] && KeyOrder.Low(bytes) && key == KeyOf(bytes)
  }

  function RealCast(): Cast {
    Cast(KeyOf(Text(97, 16)), KeyOf(Text(98, 16)), KeyOf(Text(99, 40)), KeyOf(Text(100, 48)), KeyOf(Text(101, 40)),
         KeyOf(Text(102, 40)), KeyOf(Text(103, 40)), KeyOf(Text(104, 40)), KeyOf(Text(105, 40)), KeyOf(Text(106, 40)))
  }

  lemma TextKey(b: KeyOrder.Byte, n: nat)
    requires n > 0 && b < 128
    ensures FromBytes(KeyOf(Text(b, n))) && KeyOf(Text(b, n)).size == n
    ensures (b as real + 1.0) / 258.0 <= KeyOf(Text(b, n)).rank < (b as real + 2.0) / 258.0
  {
    var bytes := Text(b, n);
    assert bytes[0] == b && bytes != [] && KeyOrder.Low(bytes);
  }

  lemma RealCastReady()
    ensures var c := RealCast();
            && Ready(c) && FromBytes(c.a) && FromBytes(c.b) && FromBytes(c.y) && FromBytes(c.s) && FromBytes(c.x1)
            && FromBytes(c.x2) && FromBytes(c.x3) && FromBytes(c.x4) && FromBytes(c.x5) && FromBytes(c.x6)
  {
    TextKey(97, 16);
    TextKey(98, 16);
    TextKey(99, 40);
    TextKey(100, 48);
    TextKey(101, 40);
    TextKey(102, 40);
    TextKey(103, 40);
    TextKey(104, 40);
    TextKey(105, 40);
    TextKey(106, 40);
  }

  // ---------- Leaves of a few records ----------

  lemma {:induction false} AlreadySorted(slots: seq<Slot>)
    requires InOrder(slots) && forall i :: 0 <= i < |slots| ==> slots[i].visible
    ensures Visible(slots) == slots && Sort(slots) == slots
  {
    if slots != [] {
      AlreadySorted(slots[1..]);
      assert slots == [slots[0]] + slots[1..];
    }
  }

  lemma SizeOfTwo(p: Slot, q: Slot)
    ensures TotalSize([p]) == RecordSize(p) && TotalSize([p, q]) == RecordSize(p) + RecordSize(q)
  {
    assert [p][1..] == [] && [p, q][1..] == [q] && [q][1..] == [];
  }

  lemma SizeOfThree(p: Slot, q: Slot, r: Slot)
    ensures TotalSize([p, q, r]) == RecordSize(p) + RecordSize(q) + RecordSize(r)
  {
    assert [p, q, r][1..] == [q, r];
    SizeOfTwo(q, r);
  }

  lemma OrderOfThree(p: Slot, q: Slot, r: Slot)
    requires p.key.rank < q.key.rank < r.key.rank && p.visible && q.visible && r.visible
    ensures Visible([p, q, r]) == [p, q, r] && Sort([p, q, r]) == [p, q, r]
  {
    AlreadySorted([p, q, r]);
  }

  lemma CountOfThree(p: Slot, q: Slot, r: Slot, budget: int)
    requires RecordSize(p) < budget
    ensures LeftCount([p, q, r], budget) == if budget <= RecordSize(p) + RecordSize(q) then 2 else 3
  {
    assert [p, q, r][1..] == [q, r] && [q, r][1..] == [r] && [r][1..] == [];
    assert LeftCount([r], budget - RecordSize(p) - RecordSize(q)) == 1;
    assert LeftCount([q, r], budget - RecordSize(p)) == if budget <= RecordSize(p) + RecordSize(q) then 1 else 2;
  }

  /** Three records in order are cut after the second, or not at all if the first two hold less than half. */
  lemma HalvesOfThree(p: Slot, q: Slot, r: Slot)
    requires p.key.rank < q.key.rank < r.key.rank && p.visible && q.visible && r.visible
    requires RecordSize(p) < (RecordSize(p) + RecordSize(q) + RecordSize(r)) / 2
    ensures Visible([p, q, r]) != []
    ensures LeafHalves([p, q, r])
            == if (RecordSize(p) + RecordSize(q) + RecordSize(r)) / 2 <= RecordSize(p) + RecordSize(q)
               then (Leaf([p, q]), Leaf([r]), q.key) else (Leaf([p, q, r]), Leaf([]), r.key)
  {
    var s := [p, q, r];
    OrderOfThree(p, q, r);
    SizeOfThree(p, q, r);
    CountOfThree(p, q, r, TotalSize(s) / 2);
    assert s[..2] == [p, q] && s[2..] == [r] && s[..3] == s && s[3..] == [];
  }

  // ---------- Paths of one and two levels ----------

  /** The key belongs to child i. */
  predicate Leads(n: Node, key: Key, i: nat) {
    && n.Internal? && Shaped(n) && Sorted(n.seps) && i < |n.children|
    && (i > 0 ==> n.seps[i - 1].rank < key.rank) && (i < |n.seps| ==> key.rank <= n.seps[i].rank)
  }

  lemma Path1(root: Node, key: Key, i: nat)
    requires Leads(root, key, i) && root.children[i].Leaf?
    ensures Descend(root, key) == [Frame(root, i)] && LeafFor(root, key) == root.children[i]
  {
    ChildIndexUnique(root.seps, key, i);
    assert Descend(root.children[i], key) == [];
  }

  lemma Path2(root: Node, key: Key, i: nat, j: nat)
    requires Leads(root, key, i) && Leads(root.children[i], key, j) && root.children[i].children[j].Leaf?
    ensures Descend(root, key) == [Frame(root, i), Frame(root.children[i], j)]
    ensures LeafFor(root, key) == root.children[i].children[j]
  {
    ChildIndexUnique(root.seps, key, i);
    Path1(root.children[i], key, j);
    assert Descend(root, key) == [Frame(root, i)] + Descend(root.children[i], key);
  }

  function With(n: Node, i: nat, child: Node): Node
    requires n.Internal? && i < |n.children|
  {
    n.(children := n.children[i := child])
  }

  lemma Plug1(f: Frame, n: Node)
    requires FrameOk(f)
    ensures StackOk([f]) && Plug([f], n) == With(f.node, f.index, n)
  {
    assert Rest([f]) == [] && Top([f]) == f;
  }

  lemma Plug2(f: Frame, g: Frame, n: Node)
    requires FrameOk(f) && FrameOk(g)
    ensures StackOk([f, g]) && Plug([f, g], n) == With(f.node, f.index, With(g.node, g.index, n))
  {
    assert Rest([f, g]) == [f] && Top([f, g]) == g;
    Plug1(f, With(g.node, g.index, n));
  }

  // ---------- Inserts that find room ----------

  predicate Lacks(slots: seq<Slot>, key: Key) {
    forall i :: 0 <= i < |slots| ==> slots[i].key.rank != key.rank
  }

  function More(slots: seq<Slot>, key: Key, payload: nat): Node {
    Leaf(slots + [Slot(true, key, payload)])
  }

  lemma Put0(slots: seq<Slot>, key: Key, payload: nat)
    requires Lacks(slots, key) && !LeafIsFull(slots, key, SPLIT)
    ensures InsertRound(Leaf(slots), key, payload, SPLIT) == Added(More(slots, key, payload))
  {
  }

  lemma Put1(root: Node, i: nat, slots: seq<Slot>, key: Key, payload: nat)
    requires Leads(root, key, i) && root.children[i] == Leaf(slots) && Lacks(slots, key)
    requires !LeafIsFull(slots, key, SPLIT)
    ensures InsertRound(root, key, payload, SPLIT) == Added(With(root, i, More(slots, key, payload)))
  {
    Path1(root, key, i);
    Plug1(Frame(root, i), More(slots, key, payload));
  }

  lemma Put2(root: Node, i: nat, j: nat, slots: seq<Slot>, key: Key, payload: nat)
    requires Leads(root, key, i) && Leads(root.children[i], key, j) && root.children[i].children[j] == Leaf(slots)
    requires Lacks(slots, key) && !LeafIsFull(slots, key, SPLIT)
    ensures InsertRound(root, key, payload, SPLIT)
            == Added(With(root, i, With(root.children[i], j, More(slots, key, payload))))
  {
    Path2(root, key, i, j);
    Plug2(Frame(root, i), Frame(root.children[i], j), More(slots, key, payload));
  }

  // ---------- Inserts that split ----------

  lemma Split0(slots: seq<Slot>, key: Key, payload: nat)
    requires Lacks(slots, key) && LeafIsFull(slots, key, SPLIT) && |slots| > 2 && Visible(slots) != []
    ensures var (l, r, sep) := LeafHalves(slots);
            InsertRound(Leaf(slots), key, payload, SPLIT) == Again(Internal([sep], [l, r]))
  {
  }

  /** A leaf that has no room for the key and is split into l and r. */
  predicate Bursts(slots: seq<Slot>, key: Key, l: Node, r: Node, sep: Key) {
    && Lacks(slots, key) && LeafIsFull(slots, key, SPLIT)
    && |slots| > 2 && Visible(slots) != [] && LeafHalves(slots) == (l, r, sep)
  }

  /** A round that splits the leaf it came to. */
  lemma SplitRound(
    root: Node, key: Key, payload: nat, stack: seq<Frame>, slots: seq<Slot>, l: Node, r: Node, sep: Key)
    requires Shaped(root) && StackOk(stack) && stack != []
    requires Descend(root, key) == stack && LeafFor(root, key) == Leaf(slots) && Bursts(slots, key, l, r, sep)
    requires PrepareForSplit(stack, SPLIT, sep, l, r).Prepared?
    ensures InsertRound(root, key, payload, SPLIT) == Again(Install(PrepareForSplit(stack, SPLIT, sep, l, r)))
  {
  }

  /** The separator belongs strictly inside the range of child i. */
  predicate LeadsInside(n: Node, sep: Key, i: nat) {
    Leads(n, sep, i) && (i < |n.seps| ==> sep.rank < n.seps[i].rank)
  }

  lemma PrepareRoom(stack: seq<Frame>, n: Node, i: nat, sep: Key, l: Node, r: Node)
    requires StackOk(stack) && stack != [] && Top(stack) == Frame(n, i)
    requires LeadsInside(n, sep, i) && HasRoom(n, sep, SPLIT)
    ensures PrepareForSplit(stack, SPLIT, sep, l, r) == Prepared(stack, InsertAt(n, i, sep, l, r))
  {
    PlacedAtChild(n.seps, sep, i);
  }

  lemma Split1(root: Node, i: nat, slots: seq<Slot>, key: Key, payload: nat, l: Node, r: Node, sep: Key)
    requires Leads(root, key, i) && root.children[i] == Leaf(slots) && Bursts(slots, key, l, r, sep)
    requires HasRoom(root, sep, SPLIT) && LeadsInside(root, sep, i)
    ensures InsertRound(root, key, payload, SPLIT) == Again(InsertAt(root, i, sep, l, r))
  {
    var stack := [Frame(root, i)];
    Path1(root, key, i);
    assert Top(stack) == Frame(root, i) && Rest(stack) == [];
    PrepareRoom(stack, root, i, sep, l, r);
    SplitRound(root, key, payload, stack, slots, l, r, sep);
  }

  lemma Split2(
    root: Node, i: nat, n: Node, j: nat, slots: seq<Slot>, key: Key, payload: nat, l: Node, r: Node, sep: Key)
    requires Leads(root, key, i) && root.children[i] == n && Leads(n, key, j) && n.children[j] == Leaf(slots)
    requires Bursts(slots, key, l, r, sep) && HasRoom(n, sep, SPLIT) && LeadsInside(n, sep, j)
    ensures InsertRound(root, key, payload, SPLIT) == Again(With(root, i, InsertAt(n, j, sep, l, r)))
  {
    var stack := [Frame(root, i), Frame(n, j)];
    Path2(root, key, i, j);
    assert Top(stack) == Frame(n, j) && Rest(stack) == [Frame(root, i)];
    PrepareRoom(stack, n, j, sep, l, r);
    SplitRound(root, key, payload, stack, slots, l, r, sep);
    Plug1(Frame(root, i), InsertAt(n, j, sep, l, r));
  }

  /** A root without room is cut, and the new separator goes into its right part. */
  lemma RightHalfGrown(root: Node, i: nat, m: nat, left: Node, right: Node, sep: Key, l: Node, r: Node)
    requires root.Internal? && |root.children| == |root.seps| + 1 >= 2 && m == |root.children| / 2 <= i
    requires left == CutLeft(root, m) && right == CutRight(root, m)
    requires root.seps[m - 1].rank < sep.rank && LeadsInside(right, sep, i - m)
    ensures Halves(root, sep, l, r) == Some((left, InsertAt(right, i - m, sep, l, r)))
  {
    PlacedAtChild(right.seps, sep, i - m);
  }

  lemma PrepareCut(root: Node, i: nat, m: nat, left: Node, right': Node, sep: Key, l: Node, r: Node)
    requires FrameOk(Frame(root, i)) && |root.children| >= 2 && m == |root.children| / 2
    requires Halves(root, sep, l, r) == Some((left, right')) && !HasRoom(root, sep, SPLIT)
    ensures StackOk([Frame(root, i)])
    ensures PrepareForSplit([Frame(root, i)], SPLIT, sep, l, r)
            == Prepared([], Internal([root.seps[m - 1]], [left, right']))
  {
    assert Top([Frame(root, i)]) == Frame(root, i) && Rest([Frame(root, i)]) == [];
  }

  lemma SplitCut(
    root: Node, i: nat, m: nat, left: Node, right: Node, slots: seq<Slot>, key: Key, payload: nat,
    l: Node, r: Node, sep: Key)
    requires Leads(root, key, i) && root.children[i] == Leaf(slots) && Bursts(slots, key, l, r, sep)
    requires |root.children| >= 2 && m == |root.children| / 2 && m <= i
    requires left == CutLeft(root, m) && right == CutRight(root, m)
    requires !HasRoom(root, sep, SPLIT) && root.seps[m - 1].rank < sep.rank && LeadsInside(right, sep, i - m)
    ensures InsertRound(root, key, payload, SPLIT)
            == Again(Internal([root.seps[m - 1]], [left, InsertAt(right, i - m, sep, l, r)]))
  {
    Path1(root, key, i);
    RightHalfGrown(root, i, m, left, right, sep, l, r);
    PrepareCut(root, i, m, left, InsertAt(right, i - m, sep, l, r), sep, l, r);
    SplitRound(root, key, payload, [Frame(root, i)], slots, l, r, sep);
  }

  // ---------- The trees of the run ----------

  function Rec(key: Key, payload: nat): Slot { Slot(true, key, payload) }

  function Three(c: Cast): seq<Slot> { [Rec(c.a, 1), Rec(c.b, 2), Rec(c.s, 3)] }

  /** After the first leaf was split. */
  function Stage1(c: Cast, last: seq<Slot>): Node { Internal([c.s], [Leaf(Three(c)), Leaf(last)]) }

  function First(c: Cast): seq<Slot> { [Rec(c.x1, 4), Rec(c.x2, 5)] }

  function Second(c: Cast): seq<Slot> { [Rec(c.x3, 6), Rec(c.x4, 7)] }

  function Stage2(c: Cast, last: seq<Slot>): Node {
    Internal([c.s, c.x2], [Leaf(Three(c)), Leaf(First(c)), Leaf(last)])
  }

  /** After the root was cut; the key above the left node is the last key under it. */
  function Stage3(c: Cast, left: Node, last: seq<Slot>): Node {
    Internal([c.s], [left, Internal([c.x2, c.x4], [Leaf(First(c)), Leaf(Second(c)), Leaf(last)])])
  }

  function OneLeaf(slots: seq<Slot>): Node { Internal([], [Leaf(slots)]) }

  function TwoLeaves(c: Cast, slots: seq<Slot>): Node { Internal([c.s], [Leaf(slots), Leaf([])]) }

  function Crowded(c: Cast): seq<Slot> { [Rec(c.a, 1), Slot(false, c.b, 2), Rec(c.s, 3)] }

  function Compacted(c: Cast): seq<Slot> { [Rec(c.a, 1), Rec(c.s, 3)] }

  function Refilled(c: Cast): seq<Slot> { [Rec(c.a, 1), Rec(c.s, 3), Rec(c.y, 10)] }

  /** The calls that lead to it. */
  function Script(c: Cast): seq<Op> {
    [Put(c.a, 1), Put(c.b, 2), Put(c.s, 3), Put(c.x1, 4), Put(c.x2, 5), Put(c.x3, 6), Put(c.x4, 7), Put(c.x5, 8),
     Put(c.x6, 9), Remove(c.b), Put(c.y, 10)]
  }

  // ---------- One call after the other ----------

  /** The calls of the script so far have all succeeded, and left this tree. */
  ghost predicate Reached(ops: seq<Op>, root: Node) {
    exists trees, oks :: IsRun(trees, ops, oks, SPLIT) && trees[|ops|] == root && forall i :: 0 <= i < |oks| ==> oks[i]
  }

  lemma ReachedNext(ops: seq<Op>, root: Node, op: Op, root': Node)
    requires Reached(ops, root) && Does(root, op, SPLIT, true, root')
    ensures Reached(ops + [op], root')
  {
    var trees, oks :| IsRun(trees, ops, oks, SPLIT) && trees[|ops|] == root && forall i :: 0 <= i < |oks| ==> oks[i];
    var trees', ops', oks' := trees + [root'], ops + [op], oks + [true];
    forall i {:trigger ops'[i]} | 0 <= i < |ops'|
      ensures Does(trees'[i], ops'[i], SPLIT, oks'[i], trees'[i + 1])
    {
      assert i < |ops| ==> Does(trees[i], ops[i], SPLIT, oks[i], trees[i + 1]);
    }
    assert IsRun(trees', ops', oks', SPLIT);
  }

  lemma ReachedStart()
    ensures Reached([], Leaf([]))
  {
    assert IsRun([Leaf([])], [], [], SPLIT);
  }

  /** An insert that finds room. */
  lemma PutReached(ops: seq<Op>, root: Node, key: Key, payload: nat, root': Node, ops': seq<Op>)
    requires Reached(ops, root) && Shaped(root) && InsertRound(root, key, payload, SPLIT) == Added(root')
    requires ops' == ops + [Put(key, payload)]
    ensures Reached(ops', root')
  {
    assert Insert(root, key, payload, SPLIT, 1) == Added(root');
    ReachedNext(ops, root, Put(key, payload), root');
  }

  /** An insert that splits once. */
  lemma SplitReached(ops: seq<Op>, root: Node, root1: Node, key: Key, payload: nat, root': Node, ops': seq<Op>)
    requires Reached(ops, root) && Shaped(root) && InsertRound(root, key, payload, SPLIT) == Again(root1)
    requires Shaped(root1) && InsertRound(root1, key, payload, SPLIT) == Added(root')
    requires ops' == ops + [Put(key, payload)]
    ensures Reached(ops', root')
  {
    assert Insert(root1, key, payload, SPLIT, 1) == Added(root');
    assert Insert(root, key, payload, SPLIT, 2) == Added(root');
    ReachedNext(ops, root, Put(key, payload), root');
  }

  // ---------- The first leaf ----------

  lemma FillFirst(p: Slot, q: Slot)
    requires p.key.rank < q.key.rank && p.key.size == q.key.size == 16 && p == Rec(p.key, p.payload)
    requires q == Rec(q.key, q.payload)
    ensures InsertRound(Leaf([]), p.key, p.payload, SPLIT) == Added(Leaf([p]))
    ensures InsertRound(Leaf([p]), q.key, q.payload, SPLIT) == Added(Leaf([p, q]))
  {
    SizeOfTwo(p, q);
    Put0([], p.key, p.payload);
    Put0([p], q.key, q.payload);
    assert [] + [p] == [p] && [p] + [q] == [p, q];
  }

  lemma FillThird(p: Slot, q: Slot, r: Slot)
    requires p.key.rank < q.key.rank < r.key.rank && p.key.size == q.key.size == 16 && r.key.size == 48
    requires r == Rec(r.key, r.payload)
    ensures InsertRound(Leaf([p, q]), r.key, r.payload, SPLIT) == Added(Leaf([p, q, r]))
  {
    SizeOfTwo(p, q);
    Put0([p, q], r.key, r.payload);
    assert [p, q] + [r] == [p, q, r];
  }

  /** Three inserts fill the leaf; the last record is larger than the others together. */
  lemma ReachedThree(p: Slot, q: Slot, r: Slot)
    requires p.key.rank < q.key.rank < r.key.rank && p.key.size == q.key.size == 16 && r.key.size == 48
    requires p == Rec(p.key, p.payload) && q == Rec(q.key, q.payload) && r == Rec(r.key, r.payload)
    ensures Reached([Put(p.key, p.payload), Put(q.key, q.payload), Put(r.key, r.payload)], Leaf([p, q, r]))
  {
    FillFirst(p, q);
    FillThird(p, q, r);
    var one, two, three := Put(p.key, p.payload), Put(q.key, q.payload), Put(r.key, r.payload);
    ReachedStart();
    PutReached([], Leaf([]), p.key, p.payload, Leaf([p]), [one]);
    PutReached([one], Leaf([p]), q.key, q.payload, Leaf([p, q]), [one, two]);
    PutReached([one, two], Leaf([p, q]), r.key, r.payload, Leaf([p, q, r]), [one, two, three]);
  }

  /** The split of that leaf leaves the right half empty. */
  lemma ThreeHalves(c: Cast)
    requires Ready(c)
    ensures Visible(Three(c)) != [] && LeafHalves(Three(c)) == (Leaf(Three(c)), Leaf([]), c.s)
    ensures UsedSpace(Three(c)) == 160
  {
    assert RecordSize(Rec(c.a, 1)) == RecordSize(Rec(c.b, 2)) == 24 && RecordSize(Rec(c.s, 3)) == 56;
    HalvesOfThree(Rec(c.a, 1), Rec(c.b, 2), Rec(c.s, 3));
    SizeOfThree(Rec(c.a, 1), Rec(c.b, 2), Rec(c.s, 3));
  }

  lemma FirstSplit(c: Cast, key: Key, payload: nat)
    requires Ready(c) && key.size == 40 && Lacks(Three(c), key)
    ensures InsertRound(Leaf(Three(c)), key, payload, SPLIT) == Again(Stage1(c, []))
  {
    ThreeHalves(c);
    Split0(Three(c), key, payload);
  }

  // ---------- An insert that aborts ----------

  /** A round aborts on a full leaf whose separator would repeat the one that follows the leaf. */
  lemma RoundStops(root: Node, i: nat, slots: seq<Slot>, key: Key, payload: nat)
    requires Leads(root, key, i) && root.children[i] == Leaf(slots) && Lacks(slots, key)
    requires LeafIsFull(slots, key, SPLIT) && |slots| > 2 && Visible(slots) != [] && Valid(root, 0.0, 1.0)
    requires i < |root.seps| && LeafHalves(slots).2.rank == root.seps[i].rank
    ensures InsertRound(root, key, payload, SPLIT) == Stopped(root)
  {
    Path1(root, key, i);
    SplitAbortsIff(root, key, SPLIT, 0.0, 1.0);
    assert Top([Frame(root, i)]) == Frame(root, i);
  }

  lemma StopsAfterSplit(root: Node, root1: Node, key: Key, payload: nat)
    requires Shaped(root) && InsertRound(root, key, payload, SPLIT) == Again(root1)
    requires Shaped(root1) && InsertRound(root1, key, payload, SPLIT) == Stopped(root1)
    ensures Insert(root, key, payload, SPLIT, 2) == Stopped(root1)
  {
    assert Insert(root1, key, payload, SPLIT, 1) == Stopped(root1);
  }

  lemma Stage1Leads(c: Cast, last: seq<Slot>, key: Key)
    requires Ready(c)
    ensures Leads(Stage1(c, last), key, if key.rank <= c.s.rank then 0 else 1)
  {
  }

  lemma Stage1Valid(c: Cast)
    requires Ready(c)
    ensures Valid(Stage1(c, []), 0.0, 1.0)
  {
    assert Valid(Leaf(Three(c)), 0.0, c.s.rank);
    assert Valid(Leaf([]), c.s.rank, 1.0);
  }

  lemma FourthInsertAborts(c: Cast)
    requires Ready(c)
    ensures Insert(Leaf(Three(c)), c.y, 10, SPLIT, 2) == Stopped(Stage1(c, []))
  {
    FirstSplit(c, c.y, 10);
    Stage1Leads(c, [], c.y);
    Stage1Valid(c);
    ThreeHalves(c);
    RoundStops(Stage1(c, []), 0, Three(c), c.y, 10);
    StopsAfterSplit(Leaf(Three(c)), Stage1(c, []), c.y, 10);
  }

  /**
    Main result: keys made of bytes below 0x80, three of which are inserted into an empty tree;
    inserting the fourth aborts on a separator that is already there.
  */
  lemma InsertCanAbort() returns (a: Key, b: Key, s: Key, y: Key, root: Node)
    ensures FromBytes(a) && FromBytes(b) && FromBytes(s) && FromBytes(y)
    ensures Reached([Put(a, 1), Put(b, 2), Put(s, 3)], root)
    ensures Shaped(root) && Insert(root, y, 10, SPLIT, 2).Stopped?
  {
    var c := RealCast();
    RealCastReady();
    a, b, s, y, root := c.a, c.b, c.s, c.y, Leaf(Three(c));
    ReachedThree(Rec(a, 1), Rec(b, 2), Rec(s, 3));
    FourthInsertAborts(c);
  }

  // ---------- The right-hand leaves ----------

  lemma Fill1(c: Cast, last: seq<Slot>, key: Key, payload: nat, last': seq<Slot>)
    requires Ready(c) && key.rank > c.s.rank && Lacks(last, key) && !LeafIsFull(last, key, SPLIT)
    requires last' == last + [Rec(key, payload)]
    ensures InsertRound(Stage1(c, last), key, payload, SPLIT) == Added(Stage1(c, last'))
  {
    Stage1Leads(c, last, key);
    Put1(Stage1(c, last), 1, last, key, payload);
    assert With(Stage1(c, last), 1, Leaf(last')) == Stage1(c, last');
  }

  lemma Stage2Leads(c: Cast, last: seq<Slot>, key: Key)
    requires Ready(c) && key.rank > c.x2.rank
    ensures Leads(Stage2(c, last), key, 2)
  {
  }

  lemma Fill2(c: Cast, last: seq<Slot>, key: Key, payload: nat, last': seq<Slot>)
    requires Ready(c) && key.rank > c.x2.rank && Lacks(last, key) && !LeafIsFull(last, key, SPLIT)
    requires last' == last + [Rec(key, payload)]
    ensures InsertRound(Stage2(c, last), key, payload, SPLIT) == Added(Stage2(c, last'))
  {
    Stage2Leads(c, last, key);
    Put1(Stage2(c, last), 2, last, key, payload);
    assert With(Stage2(c, last), 2, Leaf(last')) == Stage2(c, last');
  }

  lemma Stage3Shaped(c: Cast, left: Node, last: seq<Slot>)
    requires Shaped(left)
    ensures Shaped(Stage3(c, left, last)) && Shaped(Stage3(c, left, last).children[1])
  {
  }

  lemma Stage3LeadsRight(c: Cast, left: Node, last: seq<Slot>, key: Key)
    requires Ready(c) && key.rank > c.x4.rank && Shaped(left)
    ensures Leads(Stage3(c, left, last), key, 1) && Leads(Stage3(c, left, last).children[1], key, 2)
  {
    Stage3Shaped(c, left, last);
  }

  lemma Fill3(c: Cast, left: Node, last: seq<Slot>, key: Key, payload: nat, last': seq<Slot>)
    requires Ready(c) && key.rank > c.x4.rank && Shaped(left) && Lacks(last, key) && !LeafIsFull(last, key, SPLIT)
    requires last' == last + [Rec(key, payload)]
    ensures InsertRound(Stage3(c, left, last), key, payload, SPLIT) == Added(Stage3(c, left, last'))
  {
    var root := Stage3(c, left, last);
    Stage3LeadsRight(c, left, last, key);
    Put2(root, 1, 2, last, key, payload);
    assert With(root.children[1], 2, Leaf(last')) == Stage3(c, left, last').children[1];
    assert With(root, 1, Stage3(c, left, last').children[1]) == Stage3(c, left, last');
  }

  lemma RoomInLeaf(p: Slot, q: Slot, key: Key)
    requires p.key.size == q.key.size == key.size == 40
    ensures !LeafIsFull([p], key, SPLIT) && !LeafIsFull([p, q], key, SPLIT)
  {
    SizeOfTwo(p, q);
  }

  lemma FullOfThree(p: Slot, q: Slot, r: Slot, key: Key)
    requires p.key.size == q.key.size == r.key.size == key.size == 40
    ensures LeafIsFull([p, q, r], key, SPLIT) && RecordSize(p) == RecordSize(q) == RecordSize(r) == 48
  {
    SizeOfThree(p, q, r);
  }

  /** Three records of equal size are cut after the second. */
  lemma EqualHalves(p: Slot, q: Slot, r: Slot, key: Key)
    requires p.key.rank < q.key.rank < r.key.rank < key.rank && p.visible && q.visible && r.visible
    requires p.key.size == q.key.size == r.key.size == key.size == 40
    ensures Bursts([p, q, r], key, Leaf([p, q]), Leaf([r]), q.key)
  {
    FullOfThree(p, q, r, key);
    HalvesOfThree(p, q, r);
  }

  lemma Stage1Size(c: Cast, last: seq<Slot>)
    requires Ready(c)
    ensures NodeSize(Stage1(c, last)) == 112
  {
    assert Padded([c.s]) == Pad(c.s.size) + Padded([]);
  }

  lemma Stage2Size(c: Cast, last: seq<Slot>)
    requires Ready(c)
    ensures NodeSize(Stage2(c, last)) == 168
  {
    assert [c.s, c.x2][1..] == [c.x2] && Padded([c.x2]) == Pad(c.x2.size) + Padded([]);
  }

  lemma Stage1Grown(c: Cast, last: seq<Slot>, r: Slot)
    ensures InsertAt(Stage1(c, last), 1, c.x2, Leaf(First(c)), Leaf([r])) == Stage2(c, [r])
  {
    var n := InsertAt(Stage1(c, last), 1, c.x2, Leaf(First(c)), Leaf([r]));
    assert n.seps == [c.s, c.x2] && n.children == Stage2(c, [r]).children;
  }

  lemma SecondSplit(c: Cast, last: seq<Slot>)
    requires Ready(c) && last == [Rec(c.x1, 4), Rec(c.x2, 5), Rec(c.x3, 6)]
    ensures InsertRound(Stage1(c, last), c.x4, 7, SPLIT) == Again(Stage2(c, [Rec(c.x3, 6)]))
  {
    EqualHalves(last[0], last[1], last[2], c.x4);
    Stage1Leads(c, last, c.x4);
    Stage1Leads(c, last, c.x2);
    Stage1Size(c, last);
    Split1(Stage1(c, last), 1, last, c.x4, 7, Leaf(First(c)), Leaf([last[2]]), c.x2);
    Stage1Grown(c, last, last[2]);
  }

  lemma Stage2Cut(c: Cast, last: seq<Slot>, right: Node)
    requires right == Internal([c.x2], [Leaf(First(c)), Leaf(last)])
    ensures CutLeft(Stage2(c, last), 1) == OneLeaf(Three(c)) && CutRight(Stage2(c, last), 1) == right
  {
    var root := Stage2(c, last);
    assert root.seps[..0] == [] && root.children[..1] == [Leaf(Three(c))];
    assert root.seps[1..] == right.seps && root.children[1..] == right.children;
  }

  lemma RightGrown(c: Cast, last: seq<Slot>, r: Slot, right: Node)
    requires right == Internal([c.x2], [Leaf(First(c)), Leaf(last)])
    ensures InsertAt(right, 1, c.x4, Leaf(Second(c)), Leaf([r]))
            == Internal([c.x2, c.x4], [Leaf(First(c)), Leaf(Second(c)), Leaf([r])])
  {
    var n := InsertAt(right, 1, c.x4, Leaf(Second(c)), Leaf([r]));
    assert n.seps == [c.x2, c.x4] && n.children == [Leaf(First(c)), Leaf(Second(c)), Leaf([r])];
  }

  lemma RightLeads(c: Cast, last: seq<Slot>, right: Node)
    requires Ready(c) && right == Internal([c.x2], [Leaf(First(c)), Leaf(last)])
    ensures LeadsInside(right, c.x4, 1)
  {
  }

  lemma ThirdSplit(c: Cast, last: seq<Slot>)
    requires Ready(c) && last == [Rec(c.x3, 6), Rec(c.x4, 7), Rec(c.x5, 8)]
    ensures InsertRound(Stage2(c, last), c.x6, 9, SPLIT) == Again(Stage3(c, OneLeaf(Three(c)), [Rec(c.x5, 8)]))
  {
    var root, right := Stage2(c, last), Internal([c.x2], [Leaf(First(c)), Leaf(last)]);
    EqualHalves(last[0], last[1], last[2], c.x6);
    Stage2Leads(c, last, c.x6);
    Stage2Size(c, last);
    Stage2Cut(c, last, right);
    RightLeads(c, last, right);
    SplitCut(root, 2, 1, OneLeaf(Three(c)), right, last, c.x6, 9, Leaf(Second(c)), Leaf([last[2]]), c.x4);
    RightGrown(c, last, last[2], right);
  }

  // ---------- The delete, and the split that repeats the key above ----------

  lemma CrowdedIsFull(c: Cast)
    requires Ready(c)
    ensures LeafIsFull(Crowded(c), c.y, SPLIT) && TotalSize(Compacted(c)) == 80 && RecordSize(Compacted(c)[0]) == 24
  {
    SizeOfThree(Crowded(c)[0], Crowded(c)[1], Crowded(c)[2]);
    SizeOfTwo(Compacted(c)[0], Compacted(c)[1]);
  }

  lemma CrowdedHalves(c: Cast)
    requires Ready(c)
    ensures Bursts(Crowded(c), c.y, Leaf(Compacted(c)), Leaf([]), c.s)
  {
    var s, v := Crowded(c), Compacted(c);
    CrowdedIsFull(c);
    CrowdedVisible(s[0], s[1], s[2]);
    AlreadySorted(v);
    CountOfTwo(v[0], v[1], 40);
    assert v[..2] == v && v[2..] == [];
  }

  lemma CrowdedVisible(p: Slot, q: Slot, r: Slot)
    requires p.visible && !q.visible && r.visible
    ensures Visible([p, q, r]) == [p, r]
  {
    assert [p, q, r][1..] == [q, r] && [q, r][1..] == [r] && [r][1..] == [];
    assert Visible([r]) == [r] && Visible([q, r]) == [r];
  }

  lemma CountOfTwo(p: Slot, q: Slot, budget: int)
    requires RecordSize(p) < budget
    ensures LeftCount([p, q], budget) == 2
  {
    assert [p, q][1..] == [q] && [q][1..] == [];
    assert LeftCount([q], budget - RecordSize(p)) == 1;
  }

  lemma HideSecond(p: Slot, q: Slot, r: Slot, key: Key)
    requires p.key.rank < q.key.rank == key.rank && q.visible
    ensures Hide([p, q, r], key) == [p, q.(visible := false), r] && Search([p, q, r], key).Some?
  {
    assert [p, q, r][1..] == [q, r] && [q, r][1..] == [r];
    assert Hide([q, r], key) == [q.(visible := false)] + [r];
  }

  lemma Stage3LeadsLeft(c: Cast, left: Node, last: seq<Slot>, key: Key)
    requires Ready(c) && key.rank <= c.s.rank && left.Internal? && Shaped(left)
    requires left.seps == [] || left.seps == [c.s]
    ensures Leads(Stage3(c, left, last), key, 0) && Leads(left, key, 0)
  {
    Stage3Shaped(c, left, last);
  }

  lemma Stage3With(c: Cast, left: Node, last: seq<Slot>, left': Node)
    ensures With(Stage3(c, left, last), 0, left') == Stage3(c, left', last)
  {
  }

  lemma Deleted(c: Cast, last: seq<Slot>)
    requires Ready(c)
    ensures Shaped(Stage3(c, OneLeaf(Three(c)), last))
    ensures DeleteAt(Stage3(c, OneLeaf(Three(c)), last), c.b) == Some(Stage3(c, OneLeaf(Crowded(c)), last))
  {
    var left := OneLeaf(Three(c));
    Stage3LeadsLeft(c, left, last, c.b);
    Path2(Stage3(c, left, last), c.b, 0, 0);
    HideSecond(Rec(c.a, 1), Rec(c.b, 2), Rec(c.s, 3), c.b);
    Plug2(Frame(Stage3(c, left, last), 0), Frame(left, 0), Leaf(Crowded(c)));
    assert With(left, 0, Leaf(Crowded(c))) == OneLeaf(Crowded(c));
    Stage3With(c, left, last, OneLeaf(Crowded(c)));
  }

  lemma OneLeafGrown(c: Cast, slots: seq<Slot>, l: seq<Slot>)
    requires Ready(c)
    ensures HasRoom(OneLeaf(slots), c.s, SPLIT) && LeadsInside(OneLeaf(slots), c.s, 0)
    ensures InsertAt(OneLeaf(slots), 0, c.s, Leaf(l), Leaf([])) == TwoLeaves(c, l)
  {
    var n := InsertAt(OneLeaf(slots), 0, c.s, Leaf(l), Leaf([]));
    assert n.seps == [c.s] && n.children == [Leaf(l), Leaf([])];
  }

  lemma FourthSplit(c: Cast, last: seq<Slot>)
    requires Ready(c)
    ensures Shaped(Stage3(c, OneLeaf(Crowded(c)), last))
    ensures InsertRound(Stage3(c, OneLeaf(Crowded(c)), last), c.y, 10, SPLIT)
            == Again(Stage3(c, TwoLeaves(c, Compacted(c)), last))
  {
    var left := OneLeaf(Crowded(c));
    Stage3LeadsLeft(c, left, last, c.y);
    CrowdedHalves(c);
    OneLeafGrown(c, Crowded(c), Compacted(c));
    Split2(Stage3(c, left, last), 0, left, 0, Crowded(c), c.y, 10, Leaf(Compacted(c)), Leaf([]), c.s);
    Stage3With(c, left, last, TwoLeaves(c, Compacted(c)));
  }

  lemma FourthAdded(c: Cast, last: seq<Slot>)
    requires Ready(c)
    ensures Shaped(Stage3(c, TwoLeaves(c, Compacted(c)), last))
    ensures InsertRound(Stage3(c, TwoLeaves(c, Compacted(c)), last), c.y, 10, SPLIT)
            == Added(Stage3(c, TwoLeaves(c, Refilled(c)), last))
  {
    var left := TwoLeaves(c, Compacted(c));
    Stage3LeadsLeft(c, left, last, c.y);
    SizeOfTwo(Rec(c.a, 1), Rec(c.s, 3));
    Put2(Stage3(c, left, last), 0, 0, Compacted(c), c.y, 10);
    assert Compacted(c) + [Rec(c.y, 10)] == Refilled(c);
    assert With(left, 0, Leaf(Refilled(c))) == TwoLeaves(c, Refilled(c));
    Stage3With(c, left, last, TwoLeaves(c, Refilled(c)));
  }

  // ---------- The whole script ----------

  lemma FirstRounds(c: Cast, last: seq<Slot>)
    requires Ready(c) && last == [Rec(c.x1, 4)]
    ensures Shaped(Stage1(c, [])) && InsertRound(Leaf(Three(c)), c.x1, 4, SPLIT) == Again(Stage1(c, []))
    ensures InsertRound(Stage1(c, []), c.x1, 4, SPLIT) == Added(Stage1(c, last))
  {
    FirstSplit(c, c.x1, 4);
    Stage1Leads(c, [], c.x1);
    Fill1(c, [], c.x1, 4, last);
  }

  lemma Call4(c: Cast, ops: seq<Op>)
    requires Ready(c) && Reached(ops, Leaf(Three(c)))
    ensures Reached(ops + [Put(c.x1, 4)], Stage1(c, [Rec(c.x1, 4)]))
  {
    FirstRounds(c, [Rec(c.x1, 4)]);
    SplitReached(ops, Leaf(Three(c)), Stage1(c, []), c.x1, 4, Stage1(c, [Rec(c.x1, 4)]), ops + [Put(c.x1, 4)]);
  }

  lemma Call5(c: Cast, ops: seq<Op>, last: seq<Slot>)
    requires Ready(c) && last == [Rec(c.x1, 4)] && Reached(ops, Stage1(c, last))
    ensures Reached(ops + [Put(c.x2, 5)], Stage1(c, First(c)))
  {
    RoomInLeaf(last[0], last[0], c.x2);
    Fill1(c, last, c.x2, 5, First(c));
    PutReached(ops, Stage1(c, last), c.x2, 5, Stage1(c, First(c)), ops + [Put(c.x2, 5)]);
  }

  lemma Call6(c: Cast, ops: seq<Op>, last: seq<Slot>)
    requires Ready(c) && Reached(ops, Stage1(c, First(c))) && last == [Rec(c.x1, 4), Rec(c.x2, 5), Rec(c.x3, 6)]
    ensures Reached(ops + [Put(c.x3, 6)], Stage1(c, last))
  {
    RoomInLeaf(last[0], last[1], c.x3);
    Fill1(c, First(c), c.x3, 6, last);
    PutReached(ops, Stage1(c, First(c)), c.x3, 6, Stage1(c, last), ops + [Put(c.x3, 6)]);
  }

  lemma Call7(c: Cast, ops: seq<Op>, last: seq<Slot>)
    requires Ready(c) && last == [Rec(c.x1, 4), Rec(c.x2, 5), Rec(c.x3, 6)] && Reached(ops, Stage1(c, last))
    ensures Reached(ops + [Put(c.x4, 7)], Stage2(c, Second(c)))
  {
    var p := [last[2]];
    SecondSplit(c, last);
    RoomInLeaf(p[0], p[0], c.x4);
    Fill2(c, p, c.x4, 7, Second(c));
    SplitReached(ops, Stage1(c, last), Stage2(c, p), c.x4, 7, Stage2(c, Second(c)), ops + [Put(c.x4, 7)]);
  }

  lemma Call8(c: Cast, ops: seq<Op>, last: seq<Slot>)
    requires Ready(c) && Reached(ops, Stage2(c, Second(c))) && last == [Rec(c.x3, 6), Rec(c.x4, 7), Rec(c.x5, 8)]
    ensures Reached(ops + [Put(c.x5, 8)], Stage2(c, last))
  {
    RoomInLeaf(last[0], last[1], c.x5);
    Fill2(c, Second(c), c.x5, 8, last);
    PutReached(ops, Stage2(c, Second(c)), c.x5, 8, Stage2(c, last), ops + [Put(c.x5, 8)]);
  }

  function Last(c: Cast): seq<Slot> { [Rec(c.x5, 8), Rec(c.x6, 9)] }

  lemma NinthRounds(c: Cast, last: seq<Slot>, p: seq<Slot>, left: Node)
    requires Ready(c) && last == [Rec(c.x3, 6), Rec(c.x4, 7), Rec(c.x5, 8)]
    requires p == [last[2]] && left == OneLeaf(Three(c))
    ensures Shaped(Stage2(c, last)) && Shaped(Stage3(c, left, p))
    ensures InsertRound(Stage2(c, last), c.x6, 9, SPLIT) == Again(Stage3(c, left, p))
    ensures InsertRound(Stage3(c, left, p), c.x6, 9, SPLIT) == Added(Stage3(c, left, Last(c)))
  {
    ThirdSplit(c, last);
    RoomInLeaf(p[0], p[0], c.x6);
    Stage2Leads(c, last, c.x6);
    Stage3Shaped(c, left, p);
    Fill3(c, left, p, c.x6, 9, Last(c));
  }

  lemma Call9(c: Cast, ops: seq<Op>, last: seq<Slot>)
    requires Ready(c) && last == [Rec(c.x3, 6), Rec(c.x4, 7), Rec(c.x5, 8)] && Reached(ops, Stage2(c, last))
    ensures Reached(ops + [Put(c.x6, 9)], Stage3(c, OneLeaf(Three(c)), Last(c)))
  {
    var p, left := [last[2]], OneLeaf(Three(c));
    NinthRounds(c, last, p, left);
    SplitReached(ops, Stage2(c, last), Stage3(c, left, p), c.x6, 9, Stage3(c, left, Last(c)), ops + [Put(c.x6, 9)]);
  }

  lemma Call10(c: Cast, ops: seq<Op>)
    requires Ready(c) && Reached(ops, Stage3(c, OneLeaf(Three(c)), Last(c)))
    ensures Reached(ops + [Remove(c.b)], Stage3(c, OneLeaf(Crowded(c)), Last(c)))
  {
    Deleted(c, Last(c));
    ReachedNext(ops, Stage3(c, OneLeaf(Three(c)), Last(c)), Remove(c.b), Stage3(c, OneLeaf(Crowded(c)), Last(c)));
  }

  /** The tree the script leads to. */
  function End(c: Cast): Node { Stage3(c, TwoLeaves(c, Refilled(c)), Last(c)) }

  lemma Call11(c: Cast, ops: seq<Op>)
    requires Ready(c) && Reached(ops, Stage3(c, OneLeaf(Crowded(c)), Last(c)))
    ensures Reached(ops + [Put(c.y, 10)], End(c))
  {
    FourthSplit(c, Last(c));
    FourthAdded(c, Last(c));
    SplitReached(ops, Stage3(c, OneLeaf(Crowded(c)), Last(c)), Stage3(c, TwoLeaves(c, Compacted(c)), Last(c)),
                 c.y, 10, End(c), ops + [Put(c.y, 10)]);
  }

  lemma FirstSix(c: Cast, ops: seq<Op>, last: seq<Slot>)
    requires Ready(c) && Reached(ops, Leaf(Three(c))) && last == [Rec(c.x1, 4), Rec(c.x2, 5), Rec(c.x3, 6)]
    ensures Reached(ops + [Put(c.x1, 4)] + [Put(c.x2, 5)] + [Put(c.x3, 6)], Stage1(c, last))
  {
    Call4(c, ops);
    Call5(c, ops + [Put(c.x1, 4)], [Rec(c.x1, 4)]);
    Call6(c, ops + [Put(c.x1, 4)] + [Put(c.x2, 5)], last);
  }

  lemma NextThree(c: Cast, ops: seq<Op>, last: seq<Slot>)
    requires Ready(c) && last == [Rec(c.x1, 4), Rec(c.x2, 5), Rec(c.x3, 6)] && Reached(ops, Stage1(c, last))
    ensures Reached(ops + [Put(c.x4, 7)] + [Put(c.x5, 8)] + [Put(c.x6, 9)], Stage3(c, OneLeaf(Three(c)), Last(c)))
  {
    var last2 := [Rec(c.x3, 6), Rec(c.x4, 7), Rec(c.x5, 8)];
    Call7(c, ops, last);
    Call8(c, ops + [Put(c.x4, 7)], last2);
    Call9(c, ops + [Put(c.x4, 7)] + [Put(c.x5, 8)], last2);
  }

  /** The script, piece by piece. */
  lemma Pieces(c: Cast, three: seq<Op>)
    requires three == [Put(c.a, 1), Put(c.b, 2), Put(c.s, 3)]
    ensures Script(c)[..6] == three + [Put(c.x1, 4)] + [Put(c.x2, 5)] + [Put(c.x3, 6)]
    ensures Script(c)[..9] == Script(c)[..6] + [Put(c.x4, 7)] + [Put(c.x5, 8)] + [Put(c.x6, 9)]
    ensures Script(c) == Script(c)[..9] + [Remove(c.b)] + [Put(c.y, 10)]
  {
  }

  lemma ReachedSix(c: Cast, last: seq<Slot>)
    requires Ready(c) && last == [Rec(c.x1, 4), Rec(c.x2, 5), Rec(c.x3, 6)]
    ensures Reached(Script(c)[..6], Stage1(c, last))
  {
    var three := [Put(c.a, 1), Put(c.b, 2), Put(c.s, 3)];
    ReachedThree(Rec(c.a, 1), Rec(c.b, 2), Rec(c.s, 3));
    FirstSix(c, three, last);
    Pieces(c, three);
  }

  lemma ReachedNine(c: Cast)
    requires Ready(c)
    ensures Reached(Script(c)[..9], Stage3(c, OneLeaf(Three(c)), Last(c)))
  {
    var last := [Rec(c.x1, 4), Rec(c.x2, 5), Rec(c.x3, 6)];
    ReachedSix(c, last);
    NextThree(c, Script(c)[..6], last);
    Pieces(c, [Put(c.a, 1), Put(c.b, 2), Put(c.s, 3)]);
  }

  lemma ReachedEnd(c: Cast)
    requires Ready(c)
    ensures Reached(Script(c), End(c))
  {
    ReachedNine(c);
    Call10(c, Script(c)[..9]);
    Call11(c, Script(c)[..9] + [Remove(c.b)]);
    Pieces(c, [Put(c.a, 1), Put(c.b, 2), Put(c.s, 3)]);
  }

  // ---------- The merge ----------

  lemma FoundInFirst(n: Node, key: Key)
    requires n.Internal? && Shaped(n) && n.seps == [key]
    ensures CodeLookup(n, key) == CodeLookup(n.children[0], key)
  {
    ChildIndexUnique(n.seps, key, 0);
    SearchSorted(n.seps, key);
  }

  lemma FoundBefore(c: Cast)
    requires Ready(c)
    ensures var root := End(c);
            Shaped(root) && CodeLookup(root, c.s) == Some(3)
  {
    var left := TwoLeaves(c, Refilled(c));
    Stage3Shaped(c, left, Last(c));
    FoundInFirst(Stage3(c, left, Last(c)), c.s);
    FoundInFirst(left, c.s);
    assert Refilled(c)[1..][0] == Rec(c.s, 3);
  }

  lemma PickSecond(seps: seq<Key>, key: Key)
    requires |seps| == 4 && seps[1] == key
    ensures PickChild(seps, key) == 1
  {
  }

  lemma MissedAfter(c: Cast)
    requires Ready(c)
    ensures Shaped(MergeAt(End(c), 0)) && CodeLookup(MergeAt(End(c), 0), c.s) == None
  {
    var root := End(c);
    var l, r := root.children[0], root.children[1];
    var n := Joined(l, c.s, r);
    assert n.seps == [c.s, c.s, c.x2, c.x4];
    assert n.children == [Leaf(Refilled(c)), Leaf([]), Leaf(First(c)), Leaf(Second(c)), Leaf(Last(c))];
    PickSecond(n.seps, c.s);
    assert MergeAt(root, 0) == Internal([], [n]);
    assert PickChild([], c.s) == 0;
    assert CodeLookup(n, c.s) == CodeLookup(Leaf([]), c.s);
  }

  lemma ChosenToMerge(c: Cast)
    requires Ready(c)
    ensures var root := End(c);
            !EndsBelow(root.children[0], root.seps[0]) && ChooseMerge(root, 0, MERGE) == Some(0)
  {
    assert Padded([c.s]) == 48 + Padded([]);
    assert [c.x2, c.x4][1..] == [c.x4] && Padded([c.x4]) == 40 + Padded([]);
  }

  /** A merge that CheckMerge chooses, after which a key that was found is not. */
  ghost predicate LosesByMerge(root: Node, key: Key) {
    && root.Internal? && Shaped(root) && |root.children| > 1 && Alike(root.children[0], root.children[1])
    && !EndsBelow(root.children[0], root.seps[0]) && ChooseMerge(root, 0, MERGE) == Some(0)
    && CodeLookup(root, key).Some?
    && Shaped(MergeAt(root, 0)) && CodeLookup(MergeAt(root, 0), key).None?
  }

  lemma EndLoses(c: Cast)
    requires Ready(c)
    ensures LosesByMerge(End(c), c.s)
  {
    FoundBefore(c);
    ChosenToMerge(c);
    MissedAfter(c);
  }

  lemma ScriptFromBytes(c: Cast)
    requires FromBytes(c.a) && FromBytes(c.b) && FromBytes(c.y) && FromBytes(c.s) && FromBytes(c.x1)
    requires FromBytes(c.x2) && FromBytes(c.x3) && FromBytes(c.x4) && FromBytes(c.x5) && FromBytes(c.x6)
    ensures forall i :: 0 <= i < |Script(c)| ==> FromBytes(Script(c)[i].key)
  {
  }

  /**
    Main result: inserts and a delete of keys made of bytes below 0x80 take an empty tree to one
    whose left node repeats the separator above it; CheckMerge then merges the two nodes under the
    root, and the record with that key is no longer found.
  */
  lemma MergeCanMiss() returns (ops: seq<Op>, root: Node, key: Key)
    ensures Reached(ops, root) && forall i :: 0 <= i < |ops| ==> FromBytes(ops[i].key)
    ensures LosesByMerge(root, key)
  {
    var c := RealCast();
    RealCastReady();
    ops, key, root := Script(c), c.s, End(c);
    ReachedEnd(c);
    ScriptFromBytes(c);
    EndLoses(c);
  }
}
