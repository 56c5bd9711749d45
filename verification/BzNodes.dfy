/**
  BzTree nodes and search. An internal node has one child more than it has separators: its first
  child stands under a dummy null key. A search goes left of a separator it equals.

  A key is represented by its place in the order and its length. KeyOfFaithful shows that this
  loses nothing: comparing byte strings is comparing places, and no two strings share a place.
*/
module BzNodes {
  import KeyOrder
  import opened Options

  datatype Key = Key(rank: real, size: nat)

  datatype Slot = Slot(visible: bool, key: Key, payload: nat)

  datatype Node =
    | Leaf(slots: seq<Slot>)
    | Internal(seps: seq<Key>, children: seq<Node>)

  function KeyOf(bytes: KeyOrder.Bytes): Key {
    Key(KeyOrder.Rank(bytes), |bytes|)
  }

  function Sign(x: real): int {
    if x < 0.0 then -1 else if x > 0.0 then 1 else 0
  }

  /** KeyCompare on a key and the key of an entry, of which only the first is null. */
  function Compare(a: Key, b: Option<Key>): int {
    if b.None? then 1 else Sign(a.rank - b.value.rank)
  }

  /** Main result: for bytes below 0x80 the comparison of keys is the comparison of their places. */
  lemma KeyOfFaithful(a: KeyOrder.Bytes, b: KeyOrder.Bytes)
    requires KeyOrder.Low(a) && KeyOrder.Low(b)
    ensures Compare(KeyOf(a), Some(KeyOf(b))) == Sign(KeyOrder.KeyCompare(KeyOrder.Key(a), KeyOrder.Key(b)) as real)
    ensures KeyOf(a).rank == KeyOf(b).rank <==> a == b
  {
    KeyOrder.CompareIsRank(a, b);
  }

  predicate Sorted(seps: seq<Key>) {
    forall i, j :: 0 <= i < j < |seps| ==> seps[i].rank < seps[j].rank
  }

  // ---------- Choosing a child ----------

  /** The last of the first n + 1 entries strictly below the key; entry 0 is the dummy key, below everything. */
  function LastBelow(seps: seq<Key>, key: Key, n: nat): (i: nat)
    requires n <= |seps|
    ensures i <= n
    ensures i > 0 ==> seps[i - 1].rank < key.rank
    ensures forall j :: i <= j < n ==> key.rank <= seps[j].rank
  {
    if n == 0 || seps[n - 1].rank < key.rank then n else LastBelow(seps, key, n - 1)
  }

  /** The entry whose child a search must go to: the last one strictly below the key. */
  function ChildIndex(seps: seq<Key>, key: Key): (i: nat)
    ensures i <= |seps|
    ensures i > 0 ==> seps[i - 1].rank < key.rank
    ensures forall j :: i <= j < |seps| ==> key.rank <= seps[j].rank
  {
    LastBelow(seps, key, |seps|)
  }

  lemma ChildIndexUnique(seps: seq<Key>, key: Key, i: nat)
    requires Sorted(seps) && i <= |seps|
    requires i > 0 ==> seps[i - 1].rank < key.rank
    requires i < |seps| ==> key.rank <= seps[i].rank
    ensures ChildIndex(seps, key) == i
  {
  }

  /** The last entry not above the key. */
  predicate IsLastAtMost(seps: seq<Key>, key: Key, i: int) {
    && 0 <= i <= |seps|
    && (i > 0 ==> seps[i - 1].rank <= key.rank)
    && forall j :: i <= j < |seps| ==> key.rank < seps[j].rank
  }

  /** The middle of the bounds, which are never negative, so that C's division is this one. */
  function Middle(left: int, right: int): (mid: nat)
    requires 0 <= left <= right + 1 && 0 <= right
    ensures left <= right ==> left <= mid <= right
    ensures left > right ==> mid == right
  {
    (left + right) / 2
  }

  /** The key of an entry of an internal node. */
  function EntryKey(seps: seq<Key>, i: nat): Option<Key>
    requires i <= |seps|
  {
    if i == 0 then None else Some(seps[i - 1])
  }

  /** The binary search over the entries, which ends one comparison after the bounds have crossed. */
  function ChildSearch(seps: seq<Key>, key: Key, getLe: bool, left: int, right: int): (i: nat)
    requires 0 <= left <= right + 1 <= |seps| + 1 && 0 <= right
    ensures i <= |seps|
    decreases right - left + 1
  {
    var mid := Middle(left, right);
    var cmp := Compare(key, EntryKey(seps, mid));
    if cmp == 0 then (if getLe then mid - 1 else mid)
    else if left > right then (if cmp <= 0 && getLe then mid - 1 else mid)
    else if cmp > 0 then ChildSearch(seps, key, getLe, mid + 1, right)
    else ChildSearch(seps, key, getLe, left, mid - 1)
  }

  /** The child a search for the key goes to. */
  function PickChild(seps: seq<Key>, key: Key): (i: nat)
    ensures i <= |seps|
  {
    ChildSearch(seps, key, true, 0, |seps|)
  }

  predicate WeaklySorted(seps: seq<Key>) {
    forall i, j :: 0 <= i < j < |seps| ==> seps[i].rank <= seps[j].rank
  }

  /** What the bounds of the search have excluded. */
  predicate Bracket(seps: seq<Key>, key: Key, left: int, right: int) {
    && 0 <= left <= right + 1 <= |seps| + 1 && 0 <= right
    && (left > 1 ==> seps[left - 2].rank < key.rank)
    && (right < |seps| ==> key.rank < seps[right].rank)
  }

  lemma ChildIndexWeak(seps: seq<Key>, key: Key, i: nat)
    requires WeaklySorted(seps) && i <= |seps|
    requires i > 0 ==> seps[i - 1].rank < key.rank
    requires i < |seps| ==> key.rank <= seps[i].rank
    ensures ChildIndex(seps, key) == i
  {
  }

  /** On separators with repetitions the search ends where it should, or beside some separator equal to the key. */
  lemma {:induction false} SearchWeak(seps: seq<Key>, key: Key, left: int, right: int)
    requires WeaklySorted(seps) && Bracket(seps, key, left, right)
    ensures var i := ChildSearch(seps, key, true, left, right);
            i == ChildIndex(seps, key) || (i < |seps| && seps[i].rank == key.rank)
    decreases right - left + 1
  {
    var mid := Middle(left, right);
    var cmp := Compare(key, EntryKey(seps, mid));
    if cmp == 0 {
      assert seps[mid - 1].rank == key.rank;
    } else if left > right {
      ChildIndexWeak(seps, key, if cmp <= 0 then mid - 1 else mid);
    } else if cmp > 0 {
      SearchWeak(seps, key, mid + 1, right);
    } else {
      SearchWeak(seps, key, left, mid - 1);
    }
  }

  lemma SearchSorted(seps: seq<Key>, key: Key)
    requires Sorted(seps)
    ensures PickChild(seps, key) == ChildIndex(seps, key)
  {
    var i := PickChild(seps, key);
    SearchWeak(seps, key, 0, |seps|);
    if i < |seps| && seps[i].rank == key.rank {
      ChildIndexUnique(seps, key, i);
    }
  }

  lemma {:induction false} SearchLast(seps: seq<Key>, key: Key, left: int, right: int)
    requires Sorted(seps) && Bracket(seps, key, left, right)
    ensures IsLastAtMost(seps, key, ChildSearch(seps, key, false, left, right))
    decreases right - left + 1
  {
    var mid := Middle(left, right);
    var cmp := Compare(key, EntryKey(seps, mid));
    if cmp != 0 && left <= right {
      if cmp > 0 {
        SearchLast(seps, key, mid + 1, right);
      } else {
        SearchLast(seps, key, left, mid - 1);
      }
    }
  }

  lemma SearchMeans(seps: seq<Key>, key: Key, getLe: bool)
    ensures Sorted(seps) && getLe ==> ChildSearch(seps, key, getLe, 0, |seps|) == ChildIndex(seps, key)
    ensures Sorted(seps) && !getLe ==> IsLastAtMost(seps, key, ChildSearch(seps, key, getLe, 0, |seps|))
  {
    if Sorted(seps) && getLe {
      SearchSorted(seps, key);
    } else if Sorted(seps) {
      SearchLast(seps, key, 0, |seps|);
    }
  }

  /** The loop of the search, and what it returns on separators in order. */
  method GetChildIndex(seps: seq<Key>, key: Key, getLe: bool) returns (index: int)
    ensures index == ChildSearch(seps, key, getLe, 0, |seps|)
    ensures Sorted(seps) && getLe ==> index == ChildIndex(seps, key)
    ensures Sorted(seps) && !getLe ==> IsLastAtMost(seps, key, index)
  {
    var left, right := 0, |seps|;
    SearchMeans(seps, key, getLe);
    while true
      invariant 0 <= left <= right + 1 <= |seps| + 1 && 0 <= right
      invariant ChildSearch(seps, key, getLe, left, right) == ChildSearch(seps, key, getLe, 0, |seps|)
      decreases right - left + 1
    {
      var mid := Middle(left, right);
      var cmp := Compare(key, EntryKey(seps, mid));
      if cmp == 0 {
        return if getLe then mid - 1 else mid;
      }
      if left > right {
        return if cmp <= 0 && getLe then mid - 1 else mid;
      }
      if cmp > 0 {
        left := mid + 1;
      } else {
        right := mid - 1;
      }
    }
  }

  // ---------- Lookup ----------

  predicate Matches(slot: Slot, key: Key) {
    slot.visible && slot.key.rank == key.rank
  }

  /** SearchRecordMeta with no insert in flight: the first visible record with the key. */
  function Search(slots: seq<Slot>, key: Key): (r: Option<nat>)
    ensures r.None? ==> forall i :: 0 <= i < |slots| ==> !Matches(slots[i], key)
    ensures r.Some? ==> exists i :: 0 <= i < |slots| && Matches(slots[i], key) && slots[i].payload == r.value
  {
    if slots == [] then None
    else if Matches(slots[0], key) then Some(slots[0].payload)
    else Search(slots[1..], key)
  }

  predicate Shaped(n: Node) {
    n.Internal? ==> |n.children| == |n.seps| + 1 && forall i :: 0 <= i < |n.children| ==> Shaped(n.children[i])
  }

  /** TraverseToLeaf and then Read. */
  function Lookup(n: Node, key: Key): Option<nat>
    requires Shaped(n)
  {
    match n
    case Leaf(slots) => Search(slots, key)
    case Internal(seps, children) => Lookup(children[ChildIndex(seps, key)], key)
  }

  // ---------- Search order ----------

  predicate UniqueKeys(slots: seq<Slot>) {
    forall i, j :: 0 <= i < j < |slots| && slots[i].visible && slots[j].visible ==>
      slots[i].key.rank != slots[j].key.rank
  }

  function LowAt(seps: seq<Key>, i: nat, lo: real): real
    requires i <= |seps|
  {
    if i == 0 then lo else seps[i - 1].rank
  }

  function HighAt(seps: seq<Key>, i: nat, hi: real): real
    requires i <= |seps|
  {
    if i == |seps| then hi else seps[i].rank
  }

  /** Every key under the node is above lo and at most hi, and separators direct each to its leaf. */
  ghost predicate Valid(n: Node, lo: real, hi: real) {
    match n
    case Leaf(slots) =>
      && UniqueKeys(slots)
      && forall i :: 0 <= i < |slots| && slots[i].visible ==> lo < slots[i].key.rank <= hi
    case Internal(seps, children) =>
      && |children| == |seps| + 1 && Sorted(seps)
      && (forall i :: 0 <= i < |seps| ==> lo < seps[i].rank <= hi)
      && forall i :: 0 <= i < |children| ==> Valid(children[i], LowAt(seps, i, lo), HighAt(seps, i, hi))
  }

  lemma {:induction false} ValidShaped(n: Node, lo: real, hi: real)
    requires Valid(n, lo, hi)
    ensures Shaped(n)
  {
    if n.Internal? {
      forall i | 0 <= i < |n.children|
        ensures Shaped(n.children[i])
      {
        ValidShaped(n.children[i], LowAt(n.seps, i, lo), HighAt(n.seps, i, hi));
      }
    }
  }

  /** Some leaf under the node holds a visible record with the key and this payload. */
  ghost predicate Holds(n: Node, key: Key, payload: nat) {
    match n
    case Leaf(slots) => exists i :: 0 <= i < |slots| && Matches(slots[i], key) && slots[i].payload == payload
    case Internal(_, children) => exists i :: 0 <= i < |children| && Holds(children[i], key, payload)
  }

  lemma {:induction false} HeldInRange(n: Node, lo: real, hi: real, key: Key, payload: nat)
    requires Valid(n, lo, hi) && Holds(n, key, payload)
    ensures lo < key.rank <= hi
  {
    if n.Internal? {
      var i :| 0 <= i < |n.children| && Holds(n.children[i], key, payload);
      HeldInRange(n.children[i], LowAt(n.seps, i, lo), HighAt(n.seps, i, hi), key, payload);
    }
  }

  /** Main result: in a valid tree a lookup finds exactly the records that the leaves hold. */
  lemma {:induction false} LookupFindsHeld(n: Node, lo: real, hi: real, key: Key, payload: nat)
    requires Valid(n, lo, hi) && Shaped(n)
    ensures Lookup(n, key) == Some(payload) <==> Holds(n, key, payload)
  {
    match n
    case Leaf(slots) =>
    case Internal(seps, children) =>
      var c := ChildIndex(seps, key);
      LookupFindsHeld(children[c], LowAt(seps, c, lo), HighAt(seps, c, hi), key, payload);
      if i :| 0 <= i < |children| && Holds(children[i], key, payload) {
        HeldInRange(children[i], LowAt(seps, i, lo), HighAt(seps, i, hi), key, payload);
        ChildIndexUnique(seps, key, i);
      }
  }

  /** TraverseToLeaf and Read with the search as the code performs it, whatever the separators. */
  function CodeLookup(n: Node, key: Key): Option<nat>
    requires Shaped(n)
  {
    match n
    case Leaf(slots) => Search(slots, key)
    case Internal(seps, children) => CodeLookup(children[PickChild(seps, key)], key)
  }

  /** Main result: in a valid tree the binary searches lead to the record that Lookup finds. */
  lemma {:induction false} CodeLookupIsLookup(n: Node, lo: real, hi: real, key: Key)
    requires Valid(n, lo, hi) && Shaped(n)
    ensures CodeLookup(n, key) == Lookup(n, key)
  {
    if n.Internal? {
      SearchSorted(n.seps, key);
      var c := ChildIndex(n.seps, key);
      CodeLookupIsLookup(n.children[c], LowAt(n.seps, c, lo), HighAt(n.seps, c, hi), key);
    }
  }
}
