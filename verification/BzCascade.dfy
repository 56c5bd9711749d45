/**
  A split travels up the stack of ancestors: each internal node takes the new separator or, if it
  would grow too large, is cut in two and hands its own middle separator to its parent.
*/
module BzCascade {
  import opened Options
  import opened BzNodes
  import opened BzSplit

  /** Where the loop of the InternalNode constructor places a new separator; equal keys abort. */
  function SeparatorPlace(seps: seq<Key>, key: Key): (r: Option<nat>)
    ensures r.Some? ==> Fits(seps, r.value, key)
    ensures r.Some? ==> forall j :: 0 <= j < r.value ==> seps[j].rank < key.rank
    ensures r.None? ==> exists j :: 0 <= j < |seps| && seps[j].rank == key.rank
  {
    if seps == [] || key.rank < seps[0].rank then Some(0)
    else if key.rank == seps[0].rank then None
    else
      var r := SeparatorPlace(seps[1..], key);
      assert r.None? ==>
        exists j :: 0 <= j < |seps[1..]| && seps[1..][j].rank == key.rank && seps[j + 1] == seps[1..][j];
      if r.None? then None else Some(r.value + 1)
  }

  function WithSeparator(n: Node, key: Key, l: Node, r: Node): Option<Node>
    requires n.Internal? && |n.children| == |n.seps| + 1
  {
    var i := SeparatorPlace(n.seps, key);
    if i.None? then None else Some(InsertAt(n, i.value, key, l, r))
  }

  /** The new separator goes where the split child was. */
  lemma PlacedAtChild(seps: seq<Key>, key: Key, i: nat)
    requires Sorted(seps) && i <= |seps|
    requires (i > 0 ==> seps[i - 1].rank < key.rank) && (i < |seps| ==> key.rank <= seps[i].rank)
    ensures SeparatorPlace(seps, key) == if i < |seps| && key.rank == seps[i].rank then None else Some(i)
  {
  }

  // ---------- The stack ----------

  datatype Frame = Frame(node: Node, index: nat)

  predicate FrameOk(f: Frame) {
    f.node.Internal? && Shaped(f.node) && f.index < |f.node.children|
  }

  predicate StackOk(stack: seq<Frame>) {
    forall i :: 0 <= i < |stack| ==> FrameOk(stack[i])
  }

  function Rest(stack: seq<Frame>): seq<Frame>
    requires stack != []
  {
    stack[..|stack| - 1]
  }

  function Top(stack: seq<Frame>): Frame
    requires stack != []
  {
    stack[|stack| - 1]
  }

  function SetChild(f: Frame, n: Node): Node
    requires f.node.Internal? && f.index < |f.node.children|
  {
    f.node.(children := f.node.children[f.index := n])
  }

  /** The tree whose path down the stack ends in n. */
  function Plug(stack: seq<Frame>, n: Node): Node
    requires StackOk(stack)
    decreases |stack|
  {
    if stack == [] then n else Plug(Rest(stack), SetChild(Top(stack), n))
  }

  /** Each frame's node is the child its parent's frame chose, and n is the last choice. */
  ghost predicate Linked(stack: seq<Frame>, n: Node)
    requires StackOk(stack)
    decreases |stack|
  {
    stack != [] ==> Top(stack).node.children[Top(stack).index] == n && Linked(Rest(stack), Top(stack).node)
  }

  /** The bounds of the keys under the end of the stack. */
  ghost function Hole(stack: seq<Frame>, lo: real, hi: real): (real, real)
    requires StackOk(stack)
    decreases |stack|
  {
    if stack == [] then (lo, hi)
    else
      var h := Hole(Rest(stack), lo, hi);
      var f := Top(stack);
      (LowAt(f.node.seps, f.index, h.0), HighAt(f.node.seps, f.index, h.1))
  }

  lemma SetSame(f: Frame)
    requires FrameOk(f)
    ensures SetChild(f, f.node.children[f.index]) == f.node
  {
  }

  lemma {:induction false} LinkedRoot(stack: seq<Frame>, n: Node)
    requires StackOk(stack) && Linked(stack, n)
    ensures Plug(stack, n) == if stack == [] then n else stack[0].node
    decreases |stack|
  {
    if stack != [] {
      SetSame(Top(stack));
      LinkedRoot(Rest(stack), Top(stack).node);
    }
  }

  lemma SetChildLookup(f: Frame, a: Node, b: Node, k: Key)
    requires FrameOk(f) && SameAnswer(a, b, k)
    ensures SameAnswer(SetChild(f, a), SetChild(f, b), k)
  {
    var fa, fb := SetChild(f, a), SetChild(f, b);
    var c := ChildIndex(f.node.seps, k);
    assert fa.children[c] == if c == f.index then a else f.node.children[c];
    assert fb.children[c] == if c == f.index then b else f.node.children[c];
  }

  lemma {:induction false} PlugLookup(stack: seq<Frame>, a: Node, b: Node, k: Key)
    requires StackOk(stack) && SameAnswer(a, b, k)
    ensures SameAnswer(Plug(stack, a), Plug(stack, b), k)
    decreases |stack|
  {
    if stack != [] {
      SetChildLookup(Top(stack), a, b, k);
      PlugLookup(Rest(stack), SetChild(Top(stack), a), SetChild(Top(stack), b), k);
    }
  }

  lemma SetChildValid(f: Frame, a: Node, b: Node, lo: real, hi: real)
    requires FrameOk(f) && Valid(SetChild(f, a), lo, hi)
    ensures Valid(a, LowAt(f.node.seps, f.index, lo), HighAt(f.node.seps, f.index, hi))
    ensures Valid(b, LowAt(f.node.seps, f.index, lo), HighAt(f.node.seps, f.index, hi)) ==>
              Valid(SetChild(f, b), lo, hi)
  {
    var fa, fb := SetChild(f, a), SetChild(f, b);
    assert fa.children[f.index] == a;
    if Valid(b, LowAt(f.node.seps, f.index, lo), HighAt(f.node.seps, f.index, hi)) {
      forall i | 0 <= i < |fb.children|
        ensures Valid(fb.children[i], LowAt(fb.seps, i, lo), HighAt(fb.seps, i, hi))
      {
        assert Valid(fa.children[i], LowAt(fa.seps, i, lo), HighAt(fa.seps, i, hi));
      }
    }
  }

  lemma {:induction false} PlugValid(stack: seq<Frame>, a: Node, b: Node, lo: real, hi: real)
    requires StackOk(stack) && Valid(Plug(stack, a), lo, hi)
    ensures var h := Hole(stack, lo, hi);
            Valid(a, h.0, h.1) && (Valid(b, h.0, h.1) ==> Valid(Plug(stack, b), lo, hi))
    decreases |stack|
  {
    if stack != [] {
      var f, h := Top(stack), Hole(Rest(stack), lo, hi);
      PlugValid(Rest(stack), SetChild(f, a), SetChild(f, b), lo, hi);
      SetChildValid(f, a, b, h.0, h.1);
    }
  }

  // ---------- Going down ----------

  /** TraverseToLeaf, recording the stack. */
  function Descend(n: Node, key: Key): seq<Frame>
    requires Shaped(n)
  {
    if n.Leaf? then []
    else [Frame(n, ChildIndex(n.seps, key))] + Descend(n.children[ChildIndex(n.seps, key)], key)
  }

  function LeafFor(n: Node, key: Key): (leaf: Node)
    requires Shaped(n)
    ensures leaf.Leaf?
  {
    if n.Leaf? then n else LeafFor(n.children[ChildIndex(n.seps, key)], key)
  }

  lemma {:induction false} LinkedCons(f: Frame, stack: seq<Frame>, n: Node)
    requires FrameOk(f) && StackOk(stack) && Linked(stack, n)
    requires f.node.children[f.index] == if stack == [] then n else stack[0].node
    ensures Linked([f] + stack, n)
    decreases |stack|
  {
    if stack == [] {
      assert Rest([f] + stack) == [];
    } else {
      assert Rest([f] + stack) == [f] + Rest(stack) && Top([f] + stack) == Top(stack);
      LinkedCons(f, Rest(stack), Top(stack).node);
    }
  }

  lemma {:induction false} DescendLinked(n: Node, key: Key)
    requires Shaped(n)
    ensures StackOk(Descend(n, key)) && Linked(Descend(n, key), LeafFor(n, key))
    ensures Descend(n, key) == [] <==> n.Leaf?
    ensures n.Internal? ==> Descend(n, key)[0].node == n
  {
    if n.Internal? {
      var c := n.children[ChildIndex(n.seps, key)];
      DescendLinked(c, key);
      LinkedCons(Frame(n, ChildIndex(n.seps, key)), Descend(c, key), LeafFor(c, key));
    }
  }

  // ---------- Going up ----------

  /** A split ends with a node to install in place of the top of a stack, or the code aborts. */
  datatype Prepared = Aborted | Prepared(stack: seq<Frame>, node: Node)

  predicate HasRoom(n: Node, key: Key, threshold: nat)
    requires n.Internal?
  {
    HEADER + NodeSize(n) + key.size + WORD + WORD < threshold
  }

  /** The new separator goes into the half where it belongs. */
  function AddToHalf(left: Node, sep: Key, right: Node, key: Key, l: Node, r: Node): Option<(Node, Node)>
    requires left.Internal? && right.Internal?
    requires |left.children| == |left.seps| + 1 && |right.children| == |right.seps| + 1
  {
    if key.rank < sep.rank then
      var left' := WithSeparator(left, key, l, r);
      if left'.None? then None else Some((left'.value, right))
    else if key.rank > sep.rank then
      var right' := WithSeparator(right, key, l, r);
      if right'.None? then None else Some((left, right'.value))
    else None
  }

  function Halves(n: Node, key: Key, l: Node, r: Node): Option<(Node, Node)>
    requires n.Internal? && |n.children| == |n.seps| + 1 >= 2
  {
    var m := |n.children| / 2;
    AddToHalf(CutLeft(n, m), n.seps[m - 1], CutRight(n, m), key, l, r)
  }

  /** InternalNode::PrepareForSplit on the top of the stack. */
  function PrepareForSplit(stack: seq<Frame>, threshold: nat, key: Key, l: Node, r: Node): (p: Prepared)
    requires StackOk(stack) && stack != []
    ensures p.Prepared? ==> StackOk(p.stack)
    decreases |stack|
  {
    var n := Top(stack).node;
    if HasRoom(n, key, threshold) then
      var n' := WithSeparator(n, key, l, r);
      if n'.None? then Aborted else Prepared(stack, n'.value)
    else if |n.children| < 2 || Halves(n, key, l, r).None? then Aborted
    else
      var (left, right) := Halves(n, key, l, r).value;
      var sep := n.seps[|n.children| / 2 - 1];
      if Rest(stack) == [] then Prepared([], Internal([sep], [left, right]))
      else PrepareForSplit(Rest(stack), threshold, sep, left, right)
  }

  /** LeafNode::PrepareForSplit; it needs more than two records, one of them visible. */
  function PrepareLeafSplit(stack: seq<Frame>, threshold: nat, slots: seq<Slot>): (p: Prepared)
    requires StackOk(stack)
    ensures p.Prepared? ==> StackOk(p.stack)
  {
    if |slots| <= 2 || Visible(slots) == [] then Aborted
    else
      var (left, right, sep) := LeafHalves(slots);
      if stack == [] then Prepared([], Internal([sep], [left, right]))
      else PrepareForSplit(stack, threshold, sep, left, right)
  }

  /** BzTree::Insert then swaps the grandparent's pointer, or the root if there is no grandparent. */
  function Install(p: Prepared): Node
    requires p.Prepared? && StackOk(p.stack)
  {
    if p.stack == [] then p.node else Plug(Rest(p.stack), p.node)
  }

  function SplitTree(root: Node, key: Key, threshold: nat): (p: Prepared)
    requires Shaped(root)
    ensures p.Prepared? ==> StackOk(p.stack)
  {
    DescendLinked(root, key);
    PrepareLeafSplit(Descend(root, key), threshold, LeafFor(root, key).slots)
  }

  // ---------- The split preserves every answer ----------

  /** n is divided at sep into l and r, within the bounds of n; k is any key. */
  ghost predicate Halved(n: Node, sep: Key, l: Node, r: Node, lo: real, hi: real, k: Key) {
    && Splits(n, sep, l, r, k)
    && Valid(l, lo, sep.rank) && Valid(r, sep.rank, hi) && lo < sep.rank <= hi
  }

  /** Child i of n is divided at key. */
  ghost predicate Divides(n: Node, i: nat, key: Key, l: Node, r: Node, lo: real, hi: real, k: Key) {
    && n.Internal? && Valid(n, lo, hi) && Shaped(n) && i < |n.children|
    && Halved(n.children[i], key, l, r, LowAt(n.seps, i, lo), HighAt(n.seps, i, hi), k)
  }

  lemma WithSeparatorKeeps(n: Node, i: nat, key: Key, l: Node, r: Node, lo: real, hi: real, k: Key)
    requires Divides(n, i, key, l, r, lo, hi, k) && WithSeparator(n, key, l, r).Some?
    ensures var n' := WithSeparator(n, key, l, r).value; SameAnswer(n, n', k) && Valid(n', lo, hi)
  {
    PlacedAtChild(n.seps, key, i);
    var n' := InsertAt(n, i, key, l, r);
    InsertAtInserts(n, i, key, l, r);
    InsertedLookup(n, i, key, l, r, n', k);
    InsertedValid(n, i, key, l, r, n', lo, hi);
  }

  /** A child keeps its place, its bounds and itself in the half it falls into. */
  lemma CutChild(n: Node, m: nat, left: Node, right: Node, i: nat, key: Key, lo: real, hi: real)
    requires IsCut(n, m, left, right) && i < |n.children|
    requires LowAt(n.seps, i, lo) < key.rank <= HighAt(n.seps, i, hi)
    ensures key.rank < n.seps[m - 1].rank ==>
              && i < m && left.children[i] == n.children[i]
              && LowAt(left.seps, i, lo) == LowAt(n.seps, i, lo)
              && HighAt(left.seps, i, n.seps[m - 1].rank) == HighAt(n.seps, i, hi)
    ensures key.rank > n.seps[m - 1].rank ==>
              && m <= i && right.children[i - m] == n.children[i]
              && LowAt(right.seps, i - m, n.seps[m - 1].rank) == LowAt(n.seps, i, lo)
              && HighAt(right.seps, i - m, hi) == HighAt(n.seps, i, hi)
  {
    if key.rank < n.seps[m - 1].rank {
      assert i < m;
      assert left.children[i] == n.children[i];
    } else if key.rank > n.seps[m - 1].rank {
      assert i >= m;
      assert right.children[i - m] == n.children[i];
      assert i > m ==> right.seps[i - m - 1] == n.seps[i - 1];
    }
  }

  lemma CutHalves(n: Node, m: nat, left: Node, right: Node, lo: real, hi: real, k: Key)
    requires n.Internal? && Valid(n, lo, hi) && Shaped(n) && IsCut(n, m, left, right)
    ensures Halved(n, n.seps[m - 1], left, right, lo, hi, k)
  {
    CutSplits(n, m, left, right, k);
    CutValid(n, m, left, right, lo, hi);
  }

  /** A divided child is divided in whichever node holds it, within the same bounds. */
  lemma DividesMoved(
    n: Node, i: nat, n': Node, i': nat, key: Key, l: Node, r: Node, lo: real, hi: real, lo': real, hi': real, k: Key)
    requires Divides(n, i, key, l, r, lo, hi, k) && n'.Internal? && Valid(n', lo', hi') && Shaped(n')
    requires i' < |n'.children| && n'.children[i'] == n.children[i]
    requires LowAt(n'.seps, i', lo') == LowAt(n.seps, i, lo) && HighAt(n'.seps, i', hi') == HighAt(n.seps, i, hi)
    ensures Divides(n', i', key, l, r, lo', hi', k)
  {
  }

  lemma LeftDivides(
    n: Node, m: nat, left: Node, right: Node, i: nat, key: Key, l: Node, r: Node, lo: real, hi: real, mid: real, k: Key)
    requires Divides(n, i, key, l, r, lo, hi, k) && IsCut(n, m, left, right)
    requires mid == n.seps[m - 1].rank && key.rank < mid
    ensures Divides(left, i, key, l, r, lo, mid, k)
  {
    CutValid(n, m, left, right, lo, hi);
    ValidShaped(left, lo, mid);
    CutChild(n, m, left, right, i, key, lo, hi);
    DividesMoved(n, i, left, i, key, l, r, lo, hi, lo, mid, k);
  }

  lemma RightDivides(
    n: Node, m: nat, left: Node, right: Node, i: nat, key: Key, l: Node, r: Node, lo: real, hi: real, mid: real, k: Key)
    requires Divides(n, i, key, l, r, lo, hi, k) && IsCut(n, m, left, right)
    requires mid == n.seps[m - 1].rank && mid < key.rank
    ensures m <= i && Divides(right, i - m, key, l, r, mid, hi, k)
  {
    CutValid(n, m, left, right, lo, hi);
    ValidShaped(right, mid, hi);
    CutChild(n, m, left, right, i, key, lo, hi);
    DividesMoved(n, i, right, i - m, key, l, r, lo, hi, mid, hi, k);
  }

  lemma NewLeft(
    n: Node, m: nat, left: Node, right: Node, i: nat, key: Key, l: Node, r: Node, lo: real, hi: real, k: Key)
    requires Divides(n, i, key, l, r, lo, hi, k) && IsCut(n, m, left, right) && key.rank < n.seps[m - 1].rank
    requires WithSeparator(left, key, l, r).Some?
    ensures var left' := WithSeparator(left, key, l, r).value;
            SameAnswer(left, left', k) && Valid(left', lo, n.seps[m - 1].rank)
  {
    var mid := n.seps[m - 1].rank;
    LeftDivides(n, m, left, right, i, key, l, r, lo, hi, mid, k);
    WithSeparatorKeeps(left, i, key, l, r, lo, mid, k);
  }

  lemma NewRight(
    n: Node, m: nat, left: Node, right: Node, i: nat, key: Key, l: Node, r: Node, lo: real, hi: real, k: Key)
    requires Divides(n, i, key, l, r, lo, hi, k) && IsCut(n, m, left, right) && n.seps[m - 1].rank < key.rank
    requires WithSeparator(right, key, l, r).Some?
    ensures var right' := WithSeparator(right, key, l, r).value;
            SameAnswer(right, right', k) && Valid(right', n.seps[m - 1].rank, hi)
  {
    var mid := n.seps[m - 1].rank;
    RightDivides(n, m, left, right, i, key, l, r, lo, hi, mid, k);
    WithSeparatorKeeps(right, i - m, key, l, r, mid, hi, k);
  }

  /** Either half may give way to a node that answers as it does. */
  lemma RefineHalves(n: Node, sep: Key, left: Node, right: Node, left': Node, right': Node, lo: real, hi: real, k: Key)
    requires Halved(n, sep, left, right, lo, hi, k) && SameAnswer(left, left', k) && SameAnswer(right, right', k)
    requires Valid(left', lo, sep.rank) && Valid(right', sep.rank, hi)
    ensures Halved(n, sep, left', right', lo, hi, k)
  {
  }

  lemma AddToHalfKeeps(
    n: Node, m: nat, left: Node, right: Node, i: nat, key: Key, l: Node, r: Node, lo: real, hi: real, k: Key)
    requires Divides(n, i, key, l, r, lo, hi, k) && IsCut(n, m, left, right)
    requires AddToHalf(left, n.seps[m - 1], right, key, l, r).Some?
    ensures var (left', right') := AddToHalf(left, n.seps[m - 1], right, key, l, r).value;
            Halved(n, n.seps[m - 1], left', right', lo, hi, k)
  {
    var sep := n.seps[m - 1];
    CutHalves(n, m, left, right, lo, hi, k);
    if key.rank < sep.rank {
      NewLeft(n, m, left, right, i, key, l, r, lo, hi, k);
      RefineHalves(n, sep, left, right, WithSeparator(left, key, l, r).value, right, lo, hi, k);
    } else {
      NewRight(n, m, left, right, i, key, l, r, lo, hi, k);
      RefineHalves(n, sep, left, right, left, WithSeparator(right, key, l, r).value, lo, hi, k);
    }
  }

  lemma HalvesKeep(n: Node, i: nat, key: Key, l: Node, r: Node, lo: real, hi: real, k: Key)
    requires Divides(n, i, key, l, r, lo, hi, k) && |n.children| >= 2 && Halves(n, key, l, r).Some?
    ensures var (left, right) := Halves(n, key, l, r).value;
            Halved(n, n.seps[|n.children| / 2 - 1], left, right, lo, hi, k)
  {
    var m := |n.children| / 2;
    CutIsCut(n, m);
    AddToHalfKeeps(n, m, CutLeft(n, m), CutRight(n, m), i, key, l, r, lo, hi, k);
  }

  /** A node divided in two under a new root answers as before. */
  lemma NewRoot(n: Node, sep: Key, l: Node, r: Node, n': Node, lo: real, hi: real, k: Key)
    requires Halved(n, sep, l, r, lo, hi, k) && n' == Internal([sep], [l, r])
    ensures SameAnswer(n, n', k) && Valid(n', lo, hi)
  {
    ChildIndexUnique(n'.seps, k, if k.rank <= sep.rank then 0 else 1);
  }

  lemma TopDivides(stack: seq<Frame>, c: Node, key: Key, l: Node, r: Node, lo: real, hi: real, k: Key)
    requires StackOk(stack) && stack != [] && Linked(stack, c) && Valid(Plug(stack, c), lo, hi)
    requires var h := Hole(stack, lo, hi); Halved(c, key, l, r, h.0, h.1, k)
    ensures var h := Hole(Rest(stack), lo, hi); Divides(Top(stack).node, Top(stack).index, key, l, r, h.0, h.1, k)
    ensures Plug(stack, c) == Plug(Rest(stack), Top(stack).node)
  {
    SetSame(Top(stack));
    PlugValid(Rest(stack), Top(stack).node, Top(stack).node, lo, hi);
  }

  /** The cascade ends in a node with room. */
  lemma RoomKeeps(rest: seq<Frame>, n: Node, i: nat, key: Key, l: Node, r: Node, lo: real, hi: real, k: Key)
    requires StackOk(rest) && Valid(Plug(rest, n), lo, hi)
    requires var h := Hole(rest, lo, hi); Divides(n, i, key, l, r, h.0, h.1, k)
    requires WithSeparator(n, key, l, r).Some?
    ensures var root := Plug(rest, WithSeparator(n, key, l, r).value);
            SameAnswer(Plug(rest, n), root, k) && Valid(root, lo, hi)
  {
    var n', h := WithSeparator(n, key, l, r).value, Hole(rest, lo, hi);
    WithSeparatorKeeps(n, i, key, l, r, h.0, h.1, k);
    PlugLookup(rest, n, n', k);
    PlugValid(rest, n, n', lo, hi);
  }

  /** The tree that a prepared split installs is valid and answers k as the one before. */
  ghost predicate InstallsSame(root: Node, p: Prepared, lo: real, hi: real, k: Key) {
    match p
    case Aborted => false
    case Prepared(stack, _) => StackOk(stack) && SameAnswer(root, Install(p), k) && Valid(Install(p), lo, hi)
  }

  /** The child c at the end of the stack has been divided, and its parent is to take the two halves. */
  ghost predicate Climbs(stack: seq<Frame>, c: Node, key: Key, l: Node, r: Node, lo: real, hi: real, k: Key) {
    && StackOk(stack) && stack != [] && Linked(stack, c) && Valid(Plug(stack, c), lo, hi)
    && var h := Hole(stack, lo, hi); Halved(c, key, l, r, h.0, h.1, k)
  }

  lemma RoomCase(stack: seq<Frame>, c: Node, key: Key, l: Node, r: Node, n': Node, lo: real, hi: real, k: Key)
    requires Climbs(stack, c, key, l, r, lo, hi, k) && WithSeparator(Top(stack).node, key, l, r) == Some(n')
    ensures InstallsSame(Plug(stack, c), Prepared(stack, n'), lo, hi, k)
  {
    TopDivides(stack, c, key, l, r, lo, hi, k);
    RoomKeeps(Rest(stack), Top(stack).node, Top(stack).index, key, l, r, lo, hi, k);
  }

  /** A parent without room is cut, and is itself a divided child. */
  lemma CutCase(
    stack: seq<Frame>, c: Node, key: Key, l: Node, r: Node, left: Node, right: Node, sep: Key,
    lo: real, hi: real, k: Key)
    requires Climbs(stack, c, key, l, r, lo, hi, k) && |Top(stack).node.children| >= 2
    requires Halves(Top(stack).node, key, l, r) == Some((left, right))
    requires sep == Top(stack).node.seps[|Top(stack).node.children| / 2 - 1]
    ensures var h := Hole(Rest(stack), lo, hi); Halved(Top(stack).node, sep, left, right, h.0, h.1, k)
    ensures Plug(stack, c) == Plug(Rest(stack), Top(stack).node)
  {
    var h := Hole(Rest(stack), lo, hi);
    TopDivides(stack, c, key, l, r, lo, hi, k);
    HalvesKeep(Top(stack).node, Top(stack).index, key, l, r, h.0, h.1, k);
  }

  lemma RootCutKeeps(n: Node, sep: Key, left: Node, right: Node, lo: real, hi: real, k: Key)
    requires Halved(n, sep, left, right, lo, hi, k)
    ensures InstallsSame(n, Prepared([], Internal([sep], [left, right])), lo, hi, k)
  {
    NewRoot(n, sep, left, right, Internal([sep], [left, right]), lo, hi, k);
  }

  /** Main result: a cascade of splits up any stack keeps the tree valid and the answer to any k. */
  lemma {:induction false} CascadeKeeps(
    stack: seq<Frame>, threshold: nat, c: Node, key: Key, l: Node, r: Node, lo: real, hi: real, k: Key)
    requires Climbs(stack, c, key, l, r, lo, hi, k) && PrepareForSplit(stack, threshold, key, l, r).Prepared?
    ensures InstallsSame(Plug(stack, c), PrepareForSplit(stack, threshold, key, l, r), lo, hi, k)
    decreases |stack|
  {
    var n := Top(stack).node;
    if HasRoom(n, key, threshold) {
      RoomCase(stack, c, key, l, r, WithSeparator(n, key, l, r).value, lo, hi, k);
    } else {
      var (left, right) := Halves(n, key, l, r).value;
      var sep := n.seps[|n.children| / 2 - 1];
      CutCase(stack, c, key, l, r, left, right, sep, lo, hi, k);
      if Rest(stack) == [] {
        RootCutKeeps(n, sep, left, right, lo, hi, k);
      } else {
        CascadeKeeps(Rest(stack), threshold, n, sep, left, right, lo, hi, k);
      }
    }
  }

  /** Main result: splitting the leaf that a key leads to keeps the order and every answer. */
  lemma SplitPreservesMap(root: Node, key: Key, threshold: nat, lo: real, hi: real, k: Key)
    requires Valid(root, lo, hi) && Shaped(root) && SplitTree(root, key, threshold).Prepared?
    ensures var p := SplitTree(root, key, threshold);
            SameAnswer(root, Install(p), k) && Valid(Install(p), lo, hi)
  {
    DescendLinked(root, key);
    var stack, leaf := Descend(root, key), LeafFor(root, key);
    LinkedRoot(stack, leaf);
    PlugValid(stack, leaf, leaf, lo, hi);
    var h := Hole(stack, lo, hi);
    LeafSplits(leaf.slots, h.0, h.1, k);
    var (left, right, sep) := LeafHalves(leaf.slots);
    if stack == [] {
      NewRoot(root, sep, left, right, Internal([sep], [left, right]), lo, hi, k);
    } else {
      CascadeKeeps(stack, threshold, leaf, sep, left, right, lo, hi, k);
    }
  }

  // ---------- When a split cannot abort ----------

  lemma SeparatorFits(n: Node, i: nat, key: Key, l: Node, r: Node)
    requires n.Internal? && |n.children| == |n.seps| + 1 && Sorted(n.seps) && Fits(n.seps, i, key)
    ensures WithSeparator(n, key, l, r).Some?
  {
    PlacedAtChild(n.seps, key, i);
  }

  lemma FitsHalf(n: Node, m: nat, left: Node, right: Node, i: nat, key: Key)
    requires IsCut(n, m, left, right) && Fits(n.seps, i, key)
    ensures i < m ==> key.rank < n.seps[m - 1].rank && Sorted(left.seps) && Fits(left.seps, i, key)
    ensures i >= m ==> n.seps[m - 1].rank < key.rank && Sorted(right.seps) && Fits(right.seps, i - m, key)
  {
    if i < m {
      assert n.seps[i].rank <= n.seps[m - 1].rank;
    } else {
      assert n.seps[m - 1].rank <= n.seps[i - 1].rank;
      assert i > m ==> right.seps[i - m - 1] == n.seps[i - 1];
    }
  }

  lemma AddToHalfProceeds(n: Node, m: nat, left: Node, right: Node, i: nat, key: Key, l: Node, r: Node)
    requires IsCut(n, m, left, right) && Fits(n.seps, i, key)
    ensures AddToHalf(left, n.seps[m - 1], right, key, l, r).Some?
  {
    FitsHalf(n, m, left, right, i, key);
    if i < m {
      SeparatorFits(left, i, key, l, r);
    } else {
      SeparatorFits(right, i - m, key, l, r);
    }
  }

  lemma HalvesProceed(n: Node, i: nat, key: Key, l: Node, r: Node)
    requires n.Internal? && |n.children| == |n.seps| + 1 >= 2 && Sorted(n.seps) && Fits(n.seps, i, key)
    ensures Halves(n, key, l, r).Some?
  {
    var m := |n.children| / 2;
    CutIsCut(n, m);
    AddToHalfProceeds(n, m, CutLeft(n, m), CutRight(n, m), i, key, l, r);
  }

  // ---------- Exactly when a split aborts ----------

  /** The separator after child i is the very key that is to be added. */
  predicate Blocked(n: Node, i: nat, key: Key) {
    n.Internal? && i < |n.seps| && key.rank == n.seps[i].rank
  }

  /**
    Some node on the way up already has the key it is handed, or has too few children to be cut.
    This asks only for separators and sizes along the stack.
  */
  predicate Aborts(stack: seq<Frame>, threshold: nat, key: Key)
    requires StackOk(stack) && stack != []
    decreases |stack|
  {
    var n := Top(stack).node;
    || Blocked(n, Top(stack).index, key)
    || (!HasRoom(n, key, threshold)
        && (|n.children| < 2 || (Rest(stack) != [] && Aborts(Rest(stack), threshold, n.seps[|n.children| / 2 - 1]))))
  }

  lemma TopPlaces(stack: seq<Frame>, c: Node, key: Key, lo: real, hi: real)
    requires StackOk(stack) && stack != [] && Linked(stack, c) && Valid(Plug(stack, c), lo, hi)
    requires var h := Hole(stack, lo, hi); h.0 < key.rank <= h.1
    ensures var n, i := Top(stack).node, Top(stack).index;
            var h := Hole(Rest(stack), lo, hi);
            && Sorted(n.seps) && (i > 0 ==> n.seps[i - 1].rank < key.rank)
            && (i < |n.seps| ==> key.rank <= n.seps[i].rank)
            && (forall j :: 0 <= j < |n.seps| ==> h.0 < n.seps[j].rank <= h.1)
    ensures Valid(Plug(Rest(stack), Top(stack).node), lo, hi)
  {
    SetSame(Top(stack));
    PlugValid(Rest(stack), Top(stack).node, Top(stack).node, lo, hi);
  }

  lemma HalfBlocked(n: Node, m: nat, left: Node, right: Node, i: nat, key: Key, l: Node, r: Node)
    requires IsCut(n, m, left, right) && Blocked(n, i, key)
    ensures AddToHalf(left, n.seps[m - 1], right, key, l, r).None?
  {
    if i < m - 1 {
      assert left.seps[i] == n.seps[i];
      assert i > 0 ==> left.seps[i - 1] == n.seps[i - 1];
      PlacedAtChild(left.seps, key, i);
    } else if i >= m {
      assert right.seps[i - m] == n.seps[i];
      assert i > m ==> right.seps[i - m - 1] == n.seps[i - 1];
      PlacedAtChild(right.seps, key, i - m);
    }
  }

  /** At one node: the new separator is refused exactly when it is there already. */
  lemma RefusedIffBlocked(n: Node, i: nat, key: Key, l: Node, r: Node)
    requires n.Internal? && |n.children| == |n.seps| + 1 && Sorted(n.seps) && i <= |n.seps|
    requires (i > 0 ==> n.seps[i - 1].rank < key.rank) && (i < |n.seps| ==> key.rank <= n.seps[i].rank)
    ensures WithSeparator(n, key, l, r).None? <==> Blocked(n, i, key)
    ensures |n.children| >= 2 ==> (Halves(n, key, l, r).None? <==> Blocked(n, i, key))
  {
    PlacedAtChild(n.seps, key, i);
    if |n.children| >= 2 {
      if Blocked(n, i, key) {
        var m := |n.children| / 2;
        CutIsCut(n, m);
        HalfBlocked(n, m, CutLeft(n, m), CutRight(n, m), i, key, l, r);
      } else {
        HalvesProceed(n, i, key, l, r);
      }
    }
  }

  /** One level of the cascade, and the bounds of the key it hands on. */
  lemma TopRefuses(stack: seq<Frame>, c: Node, key: Key, l: Node, r: Node, lo: real, hi: real)
    requires StackOk(stack) && stack != [] && Linked(stack, c) && Valid(Plug(stack, c), lo, hi)
    requires var h := Hole(stack, lo, hi); h.0 < key.rank <= h.1
    ensures var n, i := Top(stack).node, Top(stack).index;
            && (WithSeparator(n, key, l, r).None? <==> Blocked(n, i, key))
            && (|n.children| >= 2 ==> (Halves(n, key, l, r).None? <==> Blocked(n, i, key)))
    ensures Valid(Plug(Rest(stack), Top(stack).node), lo, hi)
    ensures var n, h := Top(stack).node, Hole(Rest(stack), lo, hi);
            |n.children| >= 2 ==> h.0 < n.seps[|n.children| / 2 - 1].rank <= h.1
  {
    TopPlaces(stack, c, key, lo, hi);
    RefusedIffBlocked(Top(stack).node, Top(stack).index, key, l, r);
  }

  /** The cascade goes no further than this node. */
  predicate EndsHere(stack: seq<Frame>, threshold: nat, key: Key, l: Node, r: Node)
    requires StackOk(stack) && stack != []
  {
    var n := Top(stack).node;
    HasRoom(n, key, threshold) || |n.children| < 2 || Halves(n, key, l, r).None? || Rest(stack) == []
  }

  lemma AbortsHere(stack: seq<Frame>, threshold: nat, key: Key, l: Node, r: Node)
    requires StackOk(stack) && stack != [] && EndsHere(stack, threshold, key, l, r)
    requires var n, i := Top(stack).node, Top(stack).index;
             && (WithSeparator(n, key, l, r).None? <==> Blocked(n, i, key))
             && (|n.children| >= 2 ==> (Halves(n, key, l, r).None? <==> Blocked(n, i, key)))
    ensures PrepareForSplit(stack, threshold, key, l, r).Aborted? <==> Aborts(stack, threshold, key)
  {
  }

  lemma AbortsAbove(
    stack: seq<Frame>, threshold: nat, key: Key, l: Node, r: Node, left: Node, right: Node, sep: Key)
    requires StackOk(stack) && stack != [] && !EndsHere(stack, threshold, key, l, r)
    requires Halves(Top(stack).node, key, l, r) == Some((left, right))
    requires !Blocked(Top(stack).node, Top(stack).index, key)
    requires sep == Top(stack).node.seps[|Top(stack).node.children| / 2 - 1]
    ensures PrepareForSplit(stack, threshold, key, l, r) == PrepareForSplit(Rest(stack), threshold, sep, left, right)
    ensures Aborts(stack, threshold, key) <==> Aborts(Rest(stack), threshold, sep)
  {
  }

  /** Main result: a cascade aborts if and only if the condition on the stack holds. */
  lemma {:induction false} CascadeAbortsIff(
    stack: seq<Frame>, threshold: nat, c: Node, key: Key, l: Node, r: Node, lo: real, hi: real)
    requires StackOk(stack) && stack != [] && Linked(stack, c) && Valid(Plug(stack, c), lo, hi)
    requires var h := Hole(stack, lo, hi); h.0 < key.rank <= h.1
    ensures PrepareForSplit(stack, threshold, key, l, r).Aborted? <==> Aborts(stack, threshold, key)
    decreases |stack|
  {
    TopRefuses(stack, c, key, l, r, lo, hi);
    if EndsHere(stack, threshold, key, l, r) {
      AbortsHere(stack, threshold, key, l, r);
    } else {
      var n := Top(stack).node;
      var (left, right) := Halves(n, key, l, r).value;
      var sep := n.seps[|n.children| / 2 - 1];
      AbortsAbove(stack, threshold, key, l, r, left, right, sep);
      CascadeAbortsIff(Rest(stack), threshold, n, sep, left, right, lo, hi);
    }
  }

  /** With three children or more everywhere, only the node that takes the first separator can refuse it. */
  lemma {:induction false} AbortsOnlyAtTop(stack: seq<Frame>, threshold: nat, c: Node, key: Key, lo: real, hi: real)
    requires StackOk(stack) && stack != [] && Linked(stack, c) && Valid(Plug(stack, c), lo, hi)
    requires forall j :: 0 <= j < |stack| ==> |stack[j].node.children| >= 3
    requires var h := Hole(stack, lo, hi); h.0 < key.rank <= h.1
    ensures Aborts(stack, threshold, key) <==> Blocked(Top(stack).node, Top(stack).index, key)
    decreases |stack|
  {
    var n := Top(stack).node;
    TopPlaces(stack, c, key, lo, hi);
    if Rest(stack) != [] {
      var sep := n.seps[|n.children| / 2 - 1];
      assert sep.rank < n.seps[|n.seps| - 1].rank;
      AbortsOnlyAtTop(Rest(stack), threshold, n, sep, lo, hi);
    }
  }

  /** The condition for a leaf split: enough records, one of them visible, and no abort above. */
  predicate LeafAborts(stack: seq<Frame>, threshold: nat, slots: seq<Slot>)
    requires StackOk(stack)
  {
    |slots| <= 2 || Visible(slots) == [] || (stack != [] && Aborts(stack, threshold, LeafHalves(slots).2))
  }

  /** Main result: splitting the leaf a key leads to aborts if and only if the condition on its path holds. */
  lemma SplitAbortsIff(root: Node, key: Key, threshold: nat, lo: real, hi: real)
    requires Valid(root, lo, hi) && Shaped(root)
    ensures StackOk(Descend(root, key))
    ensures SplitTree(root, key, threshold).Aborted?
            <==> LeafAborts(Descend(root, key), threshold, LeafFor(root, key).slots)
  {
    DescendLinked(root, key);
    var stack, leaf := Descend(root, key), LeafFor(root, key);
    if |leaf.slots| > 2 && Visible(leaf.slots) != [] && stack != [] {
      LinkedRoot(stack, leaf);
      PlugValid(stack, leaf, leaf, lo, hi);
      var h := Hole(stack, lo, hi);
      LeafSplits(leaf.slots, h.0, h.1, key);
      var (left, right, sep) := LeafHalves(leaf.slots);
      CascadeAbortsIff(stack, threshold, leaf, sep, left, right, lo, hi);
    }
  }

  lemma SortedBelow(sorted: seq<Slot>, n: nat, hi: real)
    requires InOrder(sorted) && 0 < n < |sorted| && forall s :: s in sorted ==> s.key.rank <= hi
    ensures sorted[n - 1].key.rank < hi
  {
    assert sorted[n] in sorted;
  }

  /** The separator of a leaf split: the largest key if the right half is empty, else below the leaf's bound. */
  lemma CutBelow(slots: seq<Slot>, sorted: seq<Slot>, n: nat, lo: real, hi: real)
    requires Valid(Leaf(slots), lo, hi) && InOrder(sorted) && 0 < n <= |sorted|
    requires forall s :: s in sorted <==> s in slots && s.visible
    ensures n < |sorted| ==> sorted[n - 1].key.rank < hi
  {
    if n < |sorted| {
      SortedBelow(sorted, n, hi);
    }
  }

  lemma SeparatorOfLeaf(slots: seq<Slot>, lo: real, hi: real)
    requires Valid(Leaf(slots), lo, hi) && Visible(slots) != []
    ensures var sorted := Sort(Visible(slots));
            var n := LeftCount(sorted, TotalSize(sorted) / 2);
            0 < n <= |sorted| && (n < |sorted| ==> sorted[n - 1].key.rank < hi)
  {
    var sorted := Sort(Visible(slots));
    var n := LeftCount(sorted, TotalSize(sorted) / 2);
    LeftCountBalances(sorted, TotalSize(sorted) / 2);
    SortedRecords(slots);
    CutBelow(slots, sorted, n, lo, hi);
  }

  /**
    Main result: the leaf's parent refuses the separator if and only if the right half is empty and
    the largest key of the leaf is the separator that follows it.
  */
  lemma ParentRefusesIff(root: Node, key: Key, lo: real, hi: real)
    requires Valid(root, lo, hi) && Shaped(root) && root.Internal? && Visible(LeafFor(root, key).slots) != []
    ensures StackOk(Descend(root, key)) && Descend(root, key) != []
    ensures var slots, top := LeafFor(root, key).slots, Top(Descend(root, key));
            var (left, right, sep) := LeafHalves(slots);
            var sorted := Sort(Visible(slots));
            Blocked(top.node, top.index, sep)
            <==> right.slots == [] && Blocked(top.node, top.index, sorted[|sorted| - 1].key)
  {
    DescendLinked(root, key);
    var stack, leaf := Descend(root, key), LeafFor(root, key);
    LinkedRoot(stack, leaf);
    PlugValid(stack, leaf, leaf, lo, hi);
    var h := Hole(stack, lo, hi);
    SeparatorOfLeaf(leaf.slots, h.0, h.1);
  }

  /**
    Main result: a leaf with more than two records, one of them visible, and a non-empty right half
    is split, whichever ancestors are cut on the way, if each of them has three children or more.
  */
  lemma SplitProceeds(root: Node, key: Key, threshold: nat, lo: real, hi: real)
    requires Valid(root, lo, hi) && Shaped(root)
    requires StackOk(Descend(root, key))
    requires forall j :: 0 <= j < |Descend(root, key)| ==> |Descend(root, key)[j].node.children| >= 3
    requires |LeafFor(root, key).slots| > 2 && Visible(LeafFor(root, key).slots) != []
    requires LeafHalves(LeafFor(root, key).slots).1.slots != []
    ensures SplitTree(root, key, threshold).Prepared?
  {
    SplitAbortsIff(root, key, threshold, lo, hi);
    DescendLinked(root, key);
    var stack, leaf := Descend(root, key), LeafFor(root, key);
    if stack != [] {
      LinkedRoot(stack, leaf);
      PlugValid(stack, leaf, leaf, lo, hi);
      var h := Hole(stack, lo, hi);
      LeafSplits(leaf.slots, h.0, h.1, key);
      AbortsOnlyAtTop(stack, threshold, leaf, LeafHalves(leaf.slots).2, lo, hi);
      ParentRefusesIff(root, key, lo, hi);
    }
  }
}
