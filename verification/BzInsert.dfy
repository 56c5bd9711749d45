/** BzTree::Insert: rounds of trying the leaf and splitting it when it is full. */
module BzInsert {
  import opened Options
  import opened BzNodes
  import opened BzSplit
  import opened BzCascade

  /**
    How a round ends: the key was there, it was added, the tree was split for another round, or the
    code aborted on the tree given.
  */
  datatype Round = Exists | Added(root: Node) | Again(root: Node) | Stopped(root: Node)

  function UsedSpace(slots: seq<Slot>): nat {
    HEADER + TotalSize(slots) + |slots| * WORD
  }

  predicate LeafIsFull(slots: seq<Slot>, key: Key, threshold: nat) {
    UsedSpace(slots) + WORD + Pad(key.size) + WORD >= threshold
  }

  function InsertRound(root: Node, key: Key, payload: nat, threshold: nat): Round
    requires Shaped(root)
  {
    DescendLinked(root, key);
    var stack, slots := Descend(root, key), LeafFor(root, key).slots;
    if Search(slots, key).Some? then Exists
    else if LeafIsFull(slots, key, threshold) then
      var p := PrepareLeafSplit(stack, threshold, slots);
      if p.Aborted? then Stopped(root) else Again(Install(p))
    else Added(Plug(stack, Leaf(slots + [Slot(true, key, payload)])))
  }

  // ---------- The leaf a key leads to ----------

  lemma {:induction false} PlugCons(f: Frame, stack: seq<Frame>, n: Node)
    requires FrameOk(f) && StackOk(stack)
    ensures StackOk([f] + stack) && Plug([f] + stack, n) == SetChild(f, Plug(stack, n))
    decreases |stack|
  {
    if stack == [] {
      assert Rest([f]) == [] && [f] + stack == [f];
    } else {
      assert Rest([f] + stack) == [f] + Rest(stack) && Top([f] + stack) == Top(stack);
      PlugCons(f, Rest(stack), SetChild(Top(stack), n));
    }
  }

  /** A search for a key of the same rank ends where the path ends. */
  lemma {:induction false} LookupOnPath(root: Node, key: Key, n: Node, k: Key)
    requires Shaped(root) && Shaped(n) && k.rank == key.rank
    ensures StackOk(Descend(root, key)) && Shaped(Plug(Descend(root, key), n))
    ensures Lookup(Plug(Descend(root, key), n), k) == Lookup(n, k)
  {
    DescendLinked(root, key);
    if root.Internal? {
      var c := ChildIndex(root.seps, key);
      var f, stack := Frame(root, c), Descend(root.children[c], key);
      LookupOnPath(root.children[c], key, n, k);
      PlugCons(f, stack, n);
      SameIndex(root.seps, key, k);
    }
  }

  lemma {:induction false} SameIndex(seps: seq<Key>, a: Key, b: Key)
    requires a.rank == b.rank
    ensures ChildIndex(seps, a) == ChildIndex(seps, b)
  {
    if |seps| > 0 && seps[|seps| - 1].rank >= a.rank {
      SameIndex(seps[..|seps| - 1], a, b);
    }
  }

  lemma RootIsPlug(root: Node, key: Key)
    requires Shaped(root)
    ensures StackOk(Descend(root, key)) && Plug(Descend(root, key), LeafFor(root, key)) == root
  {
    DescendLinked(root, key);
    LinkedRoot(Descend(root, key), LeafFor(root, key));
  }

  lemma {:induction false} SearchAppended(slots: seq<Slot>, slot: Slot, k: Key)
    requires slot.visible
    ensures Search(slots + [slot], k)
            == if Search(slots, k).Some? then Search(slots, k)
               else if slot.key.rank == k.rank then Some(slot.payload) else None
  {
    if slots == [] {
      assert [] + [slot] == [slot] && [slot][1..] == [];
    } else {
      assert (slots + [slot])[1..] == slots[1..] + [slot];
      SearchAppended(slots[1..], slot, k);
    }
  }

  lemma {:induction false} SearchSameRank(slots: seq<Slot>, a: Key, b: Key)
    requires a.rank == b.rank
    ensures Search(slots, a) == Search(slots, b)
  {
    if slots != [] {
      SearchSameRank(slots[1..], a, b);
    }
  }

  // ---------- What a round does ----------

  /** The answers after an insert that succeeded. */
  ghost predicate Gains(root: Node, root': Node, key: Key, payload: nat, k: Key) {
    && Shaped(root) && Shaped(root')
    && Lookup(root', k) == if k.rank == key.rank then Some(payload) else Lookup(root, k)
  }

  lemma AddedLookup(root: Node, key: Key, payload: nat, k: Key)
    requires Shaped(root) && Search(LeafFor(root, key).slots, key).None?
    ensures StackOk(Descend(root, key))
    ensures var root' := Plug(Descend(root, key), Leaf(LeafFor(root, key).slots + [Slot(true, key, payload)]));
            Gains(root, root', key, payload, k)
  {
    var leaf := LeafFor(root, key);
    var leaf' := Leaf(leaf.slots + [Slot(true, key, payload)]);
    RootIsPlug(root, key);
    LookupOnPath(root, key, leaf', key);
    SearchAppended(leaf.slots, Slot(true, key, payload), k);
    if k.rank == key.rank {
      LookupOnPath(root, key, leaf', k);
      SearchSameRank(leaf.slots, key, k);
    } else {
      PlugLookup(Descend(root, key), leaf, leaf', k);
    }
  }

  lemma {:induction false} PathInHole(root: Node, key: Key, lo: real, hi: real)
    requires Shaped(root) && Valid(root, lo, hi) && lo < key.rank <= hi
    ensures StackOk(Descend(root, key))
    ensures var h := Hole(Descend(root, key), lo, hi); h.0 < key.rank <= h.1
  {
    DescendLinked(root, key);
    if root.Internal? {
      var c := ChildIndex(root.seps, key);
      var lo', hi' := LowAt(root.seps, c, lo), HighAt(root.seps, c, hi);
      PathInHole(root.children[c], key, lo', hi');
      HoleCons(Frame(root, c), Descend(root.children[c], key), lo, hi);
    }
  }

  lemma {:induction false} HoleCons(f: Frame, stack: seq<Frame>, lo: real, hi: real)
    requires FrameOk(f) && StackOk(stack)
    ensures StackOk([f] + stack)
    ensures Hole([f] + stack, lo, hi) == Hole(stack, LowAt(f.node.seps, f.index, lo), HighAt(f.node.seps, f.index, hi))
    decreases |stack|
  {
    if stack == [] {
      assert Rest([f]) == [] && [f] + stack == [f];
    } else {
      assert Rest([f] + stack) == [f] + Rest(stack) && Top([f] + stack) == Top(stack);
      HoleCons(f, Rest(stack), lo, hi);
    }
  }

  lemma LeafGains(slots: seq<Slot>, key: Key, payload: nat, lo: real, hi: real)
    requires Valid(Leaf(slots), lo, hi) && lo < key.rank <= hi && Search(slots, key).None?
    ensures Valid(Leaf(slots + [Slot(true, key, payload)]), lo, hi)
  {
    assert forall i :: 0 <= i < |slots| ==> !Matches(slots[i], key);
  }

  lemma AddedValid(root: Node, key: Key, payload: nat, lo: real, hi: real)
    requires Shaped(root) && Valid(root, lo, hi) && lo < key.rank <= hi && Search(LeafFor(root, key).slots, key).None?
    ensures StackOk(Descend(root, key))
    ensures Valid(Plug(Descend(root, key), Leaf(LeafFor(root, key).slots + [Slot(true, key, payload)])), lo, hi)
  {
    var leaf := LeafFor(root, key);
    var leaf' := Leaf(leaf.slots + [Slot(true, key, payload)]);
    RootIsPlug(root, key);
    PathInHole(root, key, lo, hi);
    PlugValid(Descend(root, key), leaf, leaf', lo, hi);
    var h := Hole(Descend(root, key), lo, hi);
    LeafGains(leaf.slots, key, payload, h.0, h.1);
  }

  lemma FoundLookup(root: Node, key: Key)
    requires Shaped(root)
    ensures Lookup(root, key) == Search(LeafFor(root, key).slots, key)
  {
    RootIsPlug(root, key);
    DescendLinked(root, key);
    LookupOnPath(root, key, LeafFor(root, key), key);
  }

  /** What the outcome of an insert says about the tree before and after it, and about any key k. */
  ghost predicate RoundMeaning(
    r: Round, root: Node, key: Key, payload: nat, threshold: nat, lo: real, hi: real, k: Key)
  {
    Shaped(root) &&
    match r
    case Exists => Lookup(root, key).Some?
    case Added(root') => Lookup(root, key).None? && Gains(root, root', key, payload, k) && Valid(root', lo, hi)
    case Again(root') => SameAnswer(root, root', k) && Valid(root', lo, hi)
    case Stopped(root') =>
      Lookup(root, key).None? && SameAnswer(root, root', k) && Valid(root', lo, hi) && Stuck(root', key, threshold)
  }

  /** The key's leaf has no room, and its split aborts. */
  ghost predicate Stuck(root: Node, key: Key, threshold: nat) {
    && Shaped(root) && LeafIsFull(LeafFor(root, key).slots, key, threshold)
    && StackOk(Descend(root, key)) && LeafAborts(Descend(root, key), threshold, LeafFor(root, key).slots)
  }

  /** Main result: a round aborts if and only if the key is absent and its leaf is full and cannot be split. */
  lemma RoundStopsIff(root: Node, key: Key, payload: nat, threshold: nat, lo: real, hi: real)
    requires Shaped(root) && Valid(root, lo, hi)
    ensures InsertRound(root, key, payload, threshold).Stopped?
            <==> Lookup(root, key).None? && Stuck(root, key, threshold)
  {
    FoundLookup(root, key);
    SplitAbortsIff(root, key, threshold, lo, hi);
  }

  lemma RoundMeans(root: Node, key: Key, payload: nat, threshold: nat, lo: real, hi: real, k: Key)
    requires Shaped(root) && Valid(root, lo, hi) && lo < key.rank <= hi
    ensures RoundMeaning(InsertRound(root, key, payload, threshold), root, key, payload, threshold, lo, hi, k)
  {
    FoundLookup(root, key);
    match InsertRound(root, key, payload, threshold)
    case Exists =>
    case Added(_) =>
      AddedLookup(root, key, payload, k);
      AddedValid(root, key, payload, lo, hi);
    case Again(_) => SplitPreservesMap(root, key, threshold, lo, hi, k);
    case Stopped(_) => RoundStopsIff(root, key, payload, threshold, lo, hi);
  }

  /** Up to n rounds; Again if the last of them split the tree once more. */
  function Insert(root: Node, key: Key, payload: nat, threshold: nat, n: nat): Round
    requires Shaped(root)
    decreases n, 0
  {
    if n == 0 then Again(root) else Continue(InsertRound(root, key, payload, threshold), key, payload, threshold, n - 1)
  }

  /** The rounds after one that ended in r. */
  function Continue(r: Round, key: Key, payload: nat, threshold: nat, n: nat): Round
    decreases n, 1
  {
    if r.Again? && Shaped(r.root) then Insert(r.root, key, payload, threshold, n) else r
  }

  lemma RoundsCompose(
    r: Round, root: Node, root1: Node, key: Key, payload: nat, threshold: nat, lo: real, hi: real, k: Key)
    requires SameAnswer(root, root1, k) && SameAnswer(root, root1, key)
    requires RoundMeaning(r, root1, key, payload, threshold, lo, hi, k)
    ensures RoundMeaning(r, root, key, payload, threshold, lo, hi, k)
  {
  }

  lemma {:induction false} ContinueMeans(
    r: Round, root: Node, key: Key, payload: nat, threshold: nat, n: nat, lo: real, hi: real, k: Key)
    requires lo < key.rank <= hi
    requires RoundMeaning(r, root, key, payload, threshold, lo, hi, k)
    requires RoundMeaning(r, root, key, payload, threshold, lo, hi, key)
    ensures RoundMeaning(Continue(r, key, payload, threshold, n), root, key, payload, threshold, lo, hi, k)
    decreases n, 1
  {
    if r.Again? {
      InsertMeans(r.root, key, payload, threshold, n, lo, hi, k);
      RoundsCompose(Insert(r.root, key, payload, threshold, n), root, r.root, key, payload, threshold, lo, hi, k);
    }
  }

  /**
    Main result: however many splits an insert needs, when it succeeds the key was absent and is now
    answered with the payload, when it reports the key the key was present, when it aborts it has come
    to a tree with the same answers on which the key's leaf is stuck, and no other answer changes.
  */
  lemma {:induction false} InsertMeans(
    root: Node, key: Key, payload: nat, threshold: nat, n: nat, lo: real, hi: real, k: Key)
    requires Shaped(root) && Valid(root, lo, hi) && lo < key.rank <= hi
    ensures RoundMeaning(Insert(root, key, payload, threshold, n), root, key, payload, threshold, lo, hi, k)
    decreases n, 0
  {
    if n > 0 {
      RoundMeans(root, key, payload, threshold, lo, hi, k);
      RoundMeans(root, key, payload, threshold, lo, hi, key);
      ContinueMeans(InsertRound(root, key, payload, threshold), root, key, payload, threshold, n - 1, lo, hi, k);
    }
  }
}
