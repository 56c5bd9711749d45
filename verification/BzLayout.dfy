/**
  How internal nodes are laid out: metadata grows up from the header, keys and child pointers grow
  down from the end. An internal node has no free space, so the two meet exactly.
*/
module BzLayout {
  import opened Options
  import opened BzNodes
  import opened BzSplit
  import opened BzCascade

  /** A built node: the key and child of each entry, the offset of its data, and the size allocated. */
  datatype Built = Built(keys: seq<Option<Key>>, kids: seq<Node>, offsets: seq<int>, size: int)

  function EntrySize(key: Option<Key>): nat {
    if key.None? then WORD else Pad(key.value.size) + WORD
  }

  /** The bytes of the first i entries. */
  function DataSize(keys: seq<Option<Key>>, i: nat): nat
    requires i <= |keys|
  {
    if i == 0 then 0 else DataSize(keys, i - 1) + EntrySize(keys[i - 1])
  }

  /** Entries follow one another downwards from the end without a gap. */
  ghost predicate Stacked(b: Built) {
    && |b.keys| == |b.kids| == |b.offsets|
    && forall i {:trigger b.offsets[i]} :: 0 <= i < |b.offsets| ==> b.offsets[i] == b.size - DataSize(b.keys, i + 1)
  }

  /** The data ends exactly where the metadata array ends. */
  ghost predicate Filled(b: Built) {
    Stacked(b) && b.keys != [] && b.offsets[|b.offsets| - 1] == HEADER + WORD * |b.keys|
  }

  /** The entries are those of the node. */
  ghost predicate Reads(keys: seq<Option<Key>>, kids: seq<Node>, n: Node) {
    && n.Internal? && kids == n.children && |keys| == |kids| == |n.seps| + 1
    && forall i {:trigger keys[i]} :: 0 <= i < |keys| ==> keys[i] == if i == 0 then None else Some(n.seps[i - 1])
  }

  /** The size of the node is the size of what it holds. */
  lemma {:induction false} SizeOfEntries(keys: seq<Option<Key>>, seps: seq<Key>)
    requires |keys| == |seps| + 1
    requires forall i {:trigger keys[i]} :: 0 <= i < |keys| ==> keys[i] == if i == 0 then None else Some(seps[i - 1])
    ensures DataSize(keys, |keys|) == WORD * |keys| + Padded(seps)
    decreases |keys|
  {
    if |keys| > 1 {
      var m := |keys| - 1;
      SizeOfEntries(keys[..m], seps[..m - 1]);
      SamePrefix(keys, keys[..m], m);
      PaddedSnoc(seps);
    } else {
      assert DataSize(keys, 1) == DataSize(keys, 0) + EntrySize(keys[0]);
    }
  }

  lemma {:induction false} SamePrefix(a: seq<Option<Key>>, b: seq<Option<Key>>, i: nat)
    requires i <= |a| && i <= |b| && forall j :: 0 <= j < i ==> a[j] == b[j]
    ensures DataSize(a, i) == DataSize(b, i)
  {
    if i > 0 {
      SamePrefix(a, b, i - 1);
    }
  }

  lemma {:induction false} PaddedSnoc(seps: seq<Key>)
    requires seps != []
    ensures Padded(seps) == Padded(seps[..|seps| - 1]) + Pad(seps[|seps| - 1].size)
  {
    if |seps| > 1 {
      PaddedSnoc(seps[1..]);
      assert seps[1..][..|seps| - 2] == seps[..|seps| - 1][1..];
    } else {
      assert seps[..0] == [];
    }
  }

  /** The first i of the wanted entries have been written, down to the offset. */
  ghost predicate Written(b: Built, offset: int, keys: seq<Option<Key>>, kids: seq<Node>, i: nat) {
    && i <= |keys| == |kids| && |b.keys| == |b.kids| == |b.offsets| == i
    && (forall j {:trigger b.keys[j]} :: 0 <= j < i ==> b.keys[j] == keys[j])
    && (forall j {:trigger b.kids[j]} :: 0 <= j < i ==> b.kids[j] == kids[j])
    && (forall j {:trigger b.offsets[j]} :: 0 <= j < i ==> b.offsets[j] == b.size - DataSize(keys, j + 1))
    && offset == b.size - DataSize(keys, i)
  }

  /** The next entry goes below the last one. */
  method Write(b: Built, offset: int, key: Option<Key>, kid: Node,
               ghost keys: seq<Option<Key>>, ghost kids: seq<Node>, ghost i: nat) returns (b': Built, offset': int)
    requires Written(b, offset, keys, kids, i) && i < |keys| && keys[i] == key && kids[i] == kid
    ensures Written(b', offset', keys, kids, i + 1) && b'.size == b.size
  {
    offset' := offset - EntrySize(key);
    b' := Built(b.keys + [key], b.kids + [kid], b.offsets + [offset'], b.size);
  }

  /** A node whose allocation matches its entries is exactly filled. */
  lemma ExactlyFilled(b: Built, offset: int, keys: seq<Option<Key>>, kids: seq<Node>, n: Node)
    requires Written(b, offset, keys, kids, |keys|) && Reads(keys, kids, n) && b.size == NodeSize(n)
    ensures Reads(b.keys, b.kids, n) && Filled(b)
  {
    assert b.keys == keys && b.kids == kids;
    SizeOfEntries(b.keys, n.seps);
  }

  // ---------- Merging two siblings ----------

  lemma {:induction false} PaddedConcat(a: seq<Key>, b: seq<Key>)
    ensures Padded(a + b) == Padded(a) + Padded(b)
  {
    if a == [] {
      assert a + b == b;
    } else {
      assert (a + b)[1..] == a[1..] + b;
      PaddedConcat(a[1..], b);
    }
  }

  /** Two internal nodes joined by the separator between them. */
  function Joined(left: Node, key: Key, right: Node): Node
    requires left.Internal? && right.Internal?
  {
    Internal(left.seps + [key] + right.seps, left.children + right.children)
  }

  lemma JoinedSize(left: Node, key: Key, right: Node)
    requires left.Internal? && right.Internal?
    ensures NodeSize(Joined(left, key, right)) == NodeSize(left) + NodeSize(right) + Pad(key.size) - HEADER
  {
    PaddedConcat(left.seps + [key], right.seps);
    PaddedConcat(left.seps, [key]);
    assert Padded([key]) == Pad(key.size);
  }

  /** The entries wanted of a merged node. */
  lemma JoinedEntries(left: Built, l: Node, key: Key, right: Built, r: Node)
    returns (keys: seq<Option<Key>>, kids: seq<Node>)
    requires Reads(left.keys, left.kids, l) && Reads(right.keys, right.kids, r)
    ensures |keys| == |left.keys| + |right.keys| && Reads(keys, kids, Joined(l, key, r))
    ensures forall i {:trigger left.keys[i]} :: 0 <= i < |left.keys| ==> keys[i] == left.keys[i]
    ensures forall i {:trigger left.kids[i]} :: 0 <= i < |left.keys| ==> kids[i] == left.kids[i]
    ensures forall i {:trigger right.keys[i]} :: 0 <= i < |right.keys| ==>
              keys[|left.keys| + i] == if i == 0 then Some(key) else right.keys[i]
    ensures forall i {:trigger right.kids[i]} :: 0 <= i < |right.keys| ==> kids[|left.keys| + i] == right.kids[i]
  {
    var m, n := |left.keys|, Joined(l, key, r);
    keys, kids := left.keys + ([Some(key)] + right.keys[1..]), left.kids + right.kids;
    forall i | 0 <= i < |keys|
      ensures keys[i] == if i == 0 then None else Some(n.seps[i - 1])
    {
      if i < m {
        assert keys[i] == left.keys[i];
      } else if i > m {
        assert keys[i] == right.keys[i - m];
      }
    }
  }

  /** Copies all entries of a node, the first under a new key. */
  method CopyEntries(b: Built, offset: int, src: Built, first: Option<Key>,
                      ghost keys: seq<Option<Key>>, ghost kids: seq<Node>, ghost at: nat)
    returns (b': Built, offset': int)
    requires |src.keys| == |src.kids| && at + |src.keys| <= |keys| && Written(b, offset, keys, kids, at)
    requires forall i {:trigger src.keys[i]} ::
               0 <= i < |src.keys| ==> keys[at + i] == if i == 0 then first else src.keys[i]
    requires forall i {:trigger src.kids[i]} :: 0 <= i < |src.keys| ==> kids[at + i] == src.kids[i]
    ensures Written(b', offset', keys, kids, at + |src.keys|) && b'.size == b.size
  {
    b', offset' := b, offset;
    for i := 0 to |src.keys|
      invariant Written(b', offset', keys, kids, at + i) && b'.size == b.size
    {
      var key := src.keys[i];
      b', offset' := Write(b', offset', if i == 0 then first else key, src.kids[i], keys, kids, at + i);
    }
  }

  /** InternalNode::MergeNodes: the right node's first entry takes the separator as its key. */
  method MergeNodes(left: Built, right: Built, key: Key, ghost l: Node, ghost r: Node) returns (b: Built)
    requires Reads(left.keys, left.kids, l) && Reads(right.keys, right.kids, r)
    requires left.size == NodeSize(l) && right.size == NodeSize(r)
    ensures Reads(b.keys, b.kids, Joined(l, key, r)) && b.size == NodeSize(Joined(l, key, r)) && Filled(b)
  {
    ghost var keys, kids := JoinedEntries(left, l, key, right, r);
    var offset := left.size + right.size + Pad(key.size) - HEADER;
    b := Built([], [], [], offset);
    b, offset := CopyEntries(b, offset, left, None, keys, kids, 0);
    b, offset := CopyEntries(b, offset, right, Some(key), keys, kids, |left.keys|);
    JoinedSize(l, key, r);
    ExactlyFilled(b, offset, keys, kids, Joined(l, key, r));
  }

  /** The parent without entry i + 1, entry i pointing to the merged child. */
  function Dropped(n: Node, i: nat, child: Node): Node
    requires n.Internal? && |n.children| == |n.seps| + 1 && i < |n.seps|
  {
    Internal(n.seps[..i] + n.seps[i + 1..], n.children[..i] + [child] + n.children[i + 2..])
  }

  lemma DroppedSize(n: Node, i: nat, child: Node)
    requires n.Internal? && |n.children| == |n.seps| + 1 && i < |n.seps|
    ensures NodeSize(Dropped(n, i, child)) == NodeSize(n) - EntrySize(Some(n.seps[i])) - WORD
  {
    PaddedConcat(n.seps[..i], n.seps[i..]);
    PaddedConcat(n.seps[..i], n.seps[i + 1..]);
    assert n.seps == n.seps[..i] + n.seps[i..] && n.seps[i..][1..] == n.seps[i + 1..];
  }

  /** The entries wanted of a parent that loses one. */
  lemma DroppedEntries(src: Built, n: Node, u: nat, child: Node) returns (keys: seq<Option<Key>>, kids: seq<Node>)
    requires Reads(src.keys, src.kids, n) && u + 1 < |src.keys|
    ensures |keys| == |src.keys| - 1 && Reads(keys, kids, Dropped(n, u, child))
    ensures forall i {:trigger src.keys[i]} :: 0 <= i < |src.keys| && i != u + 1 ==>
              keys[if i <= u then i else i - 1] == src.keys[i]
    ensures forall i {:trigger src.kids[i]} :: 0 <= i < |src.keys| && i != u + 1 ==>
              kids[if i <= u then i else i - 1] == if i == u then child else src.kids[i]
  {
    var n' := Dropped(n, u, child);
    keys, kids := src.keys[..u + 1] + src.keys[u + 2..], src.kids[..u] + [child] + src.kids[u + 2..];
    forall j | 0 <= j < |keys|
      ensures keys[j] == if j == 0 then None else Some(n'.seps[j - 1])
    {
      assert keys[j] == src.keys[if j <= u then j else j + 1];
    }
  }

  /** InternalNode::DeleteRecord. */
  method DeleteRecord(src: Built, update: nat, child: Node, ghost n: Node) returns (b: Built)
    requires Reads(src.keys, src.kids, n) && src.size == NodeSize(n) && update + 1 < |src.keys|
    ensures var n' := Dropped(n, update, child);
            Reads(b.keys, b.kids, n') && b.size == NodeSize(n') && Filled(b)
  {
    ghost var keys, kids := DroppedEntries(src, n, update, child);
    var offset := src.size - EntrySize(src.keys[update + 1]) - WORD;
    ghost var size := offset;
    b := Built([], [], [], offset);
    for i := 0 to |src.keys|
      invariant Written(b, offset, keys, kids, if i <= update + 1 then i else i - 1) && b.size == size
    {
      if i != update + 1 {
        var kid := src.kids[i];
        b, offset := Write(b, offset, src.keys[i], if i == update then child else kid,
                           keys, kids, if i <= update then i else i - 1);
      }
    }
    DroppedSize(n, update, child);
    ExactlyFilled(b, offset, keys, kids, Dropped(n, update, child));
  }

  // ---------- Copying part of a node, with a new separator ----------

  /** The part of a node that is copied: a range of entries, below a leftmost child if it is a right half. */
  function Part(n: Node, begin: nat, count: nat, leftMost: Option<Node>): Node
    requires n.Internal? && |n.children| == |n.seps| + 1 && begin + count <= |n.children|
    requires if begin == 0 then leftMost.None? && count > 0 else leftMost.Some?
  {
    if begin == 0 then Internal(n.seps[..count - 1], n.children[..count])
    else Internal(n.seps[begin - 1..begin - 1 + count], [leftMost.value] + n.children[begin..begin + count])
  }

  datatype Entry = Entry(sep: Option<Key>, child: Node)

  function Entries(n: Node): (es: seq<Entry>)
    requires n.Internal? && |n.children| == |n.seps| + 1
  {
    seq(|n.children|, i requires 0 <= i < |n.children| => Entry(EntryKey(n.seps, i), n.children[i]))
  }

  /** The last entry copied gives way to left, and the separator follows it. */
  function AddSeparator(done: seq<Entry>, key: Key, left: Node, right: Node): seq<Entry>
    requires done != []
  {
    done[|done| - 1 := done[|done| - 1].(child := left)] + [Entry(Some(key), right)]
  }

  /** Entries still to copy after those done, with the separator before the first greater key. */
  function Inserting(done: seq<Entry>, todo: seq<Entry>, key: Key, left: Node, right: Node): Option<seq<Entry>>
    requires done != [] || (todo != [] && todo[0].sep.None?)
    decreases |todo|
  {
    if todo == [] then Some(AddSeparator(done, key, left, right))
    else if todo[0].sep.Some? && todo[0].sep.value.rank == key.rank then None
    else if todo[0].sep.Some? && key.rank < todo[0].sep.value.rank then
      Some(AddSeparator(done, key, left, right) + todo)
    else Inserting(done + [todo[0]], todo[1..], key, left, right)
  }

  lemma AddedEntries(n: Node, p: nat, key: Key, left: Node, right: Node)
    requires n.Internal? && |n.children| == |n.seps| + 1 && 0 < p <= |n.children|
    ensures AddSeparator(Entries(n)[..p], key, left, right) + Entries(n)[p..]
            == Entries(InsertAt(n, p - 1, key, left, right))
  {
    var a := AddSeparator(Entries(n)[..p], key, left, right) + Entries(n)[p..];
    var b := Entries(InsertAt(n, p - 1, key, left, right));
    assert |a| == |b|;
    forall j | 0 <= j < |a|
      ensures a[j] == b[j]
    {
      if j > p {
        assert a[j] == Entries(n)[j - 1];
      }
    }
  }

  /** Copying entry by entry gives the node with the separator, or stops at an equal key. */
  lemma {:induction false} InsertingGives(n: Node, p: nat, key: Key, left: Node, right: Node)
    requires n.Internal? && |n.children| == |n.seps| + 1 && Sorted(n.seps) && 0 < p <= |n.children|
    requires p > 1 ==> n.seps[p - 2].rank < key.rank
    ensures var n' := WithSeparator(n, key, left, right);
            Inserting(Entries(n)[..p], Entries(n)[p..], key, left, right)
            == if n'.None? then None else Some(Entries(n'.value))
    decreases |n.children| - p
  {
    var todo := Entries(n)[p..];
    if p < |n.children| && n.seps[p - 1].rank < key.rank {
      assert Entries(n)[..p] + [todo[0]] == Entries(n)[..p + 1] && todo[1..] == Entries(n)[p + 1..];
      InsertingGives(n, p + 1, key, left, right);
    } else {
      PlacedAtChild(n.seps, key, p - 1);
      AddedEntries(n, p, key, left, right);
      var added := AddSeparator(Entries(n)[..p], key, left, right);
      assert todo == [] ==> added + todo == added;
    }
  }

  lemma PartEntries(n: Node, begin: nat, count: nat, leftMost: Option<Node>)
    requires n.Internal? && |n.children| == |n.seps| + 1 && begin + count <= |n.children|
    requires if begin == 0 then leftMost.None? && count > 0 else leftMost.Some?
    ensures Entries(Part(n, begin, count, leftMost))
            == (if begin == 0 then [] else [Entry(None, leftMost.value)]) + Entries(n)[begin..begin + count]
  {
    var a := Entries(Part(n, begin, count, leftMost));
    var b := (if begin == 0 then [] else [Entry(None, leftMost.value)]) + Entries(n)[begin..begin + count];
    assert |a| == |b|;
    forall j | 0 <= j < |a|
      ensures a[j] == b[j]
    {
      if begin == 0 {
        assert b[j] == Entries(n)[j];
      } else if j > 0 {
        assert b[j] == Entries(n)[begin + j - 1];
      }
    }
  }

  lemma OneAcross(es: seq<Entry>, todo: seq<Entry>)
    requires todo != []
    ensures es + todo == es + [todo[0]] + todo[1..]
  {
    assert todo == [todo[0]] + todo[1..];
    assert es + ([todo[0]] + todo[1..]) == (es + [todo[0]]) + todo[1..];
  }

  /** The loop of the InternalNode constructor; None stands for its abort on a key already present. */
  method CopyLoop(first: seq<Entry>, rest: seq<Entry>, key: Option<Key>, left: Node, right: Node)
    returns (r: Option<seq<Entry>>)
    requires first != [] || (rest != [] && rest[0].sep.None?)
    ensures r == if key.None? then Some(first + rest) else Inserting(first, rest, key.value, left, right)
  {
    var es, pending := first, key.Some?;
    ghost var target := if key.None? then Some(first + rest) else Inserting(first, rest, key.value, left, right);
    for i := 0 to |rest|
      invariant pending ==> key.Some? && (es != [] || (i < |rest| && rest[i].sep.None?))
      invariant pending ==> target == Inserting(es, rest[i..], key.value, left, right)
      invariant !pending ==> target == Some(es + rest[i..])
    {
      var e := rest[i];
      ghost var todo := rest[i..];
      assert todo[0] == e && todo[1..] == rest[i + 1..];
      if pending && e.sep.Some? && e.sep.value.rank == key.value.rank {
        return None;
      }
      if pending && e.sep.Some? && key.value.rank < e.sep.value.rank {
        es := AddSeparator(es, key.value, left, right);
        pending := false;
      }
      OneAcross(es, todo);
      es := es + [e];
    }
    if pending {
      es := AddSeparator(es, key.value, left, right);
    }
    assert es + rest[|rest|..] == es;
    return Some(es);
  }

  /** The node the constructor is asked for. */
  function PartWith(n: Node, begin: nat, count: nat, leftMost: Option<Node>, key: Option<Key>, left: Node, right: Node)
    : Option<Node>
    requires n.Internal? && |n.children| == |n.seps| + 1 && begin + count <= |n.children|
    requires if begin == 0 then leftMost.None? && count > 0 else leftMost.Some?
  {
    var part := Part(n, begin, count, leftMost);
    if key.None? then Some(part) else WithSeparator(part, key.value, left, right)
  }

  lemma CopyGives(part: Node, first: seq<Entry>, rest: seq<Entry>, key: Key, left: Node, right: Node)
    requires part.Internal? && |part.children| == |part.seps| + 1 && Sorted(part.seps)
    requires Entries(part) == first + rest && |first| <= 1 && (first != [] || (rest != [] && rest[0].sep.None?))
    ensures var n' := WithSeparator(part, key, left, right);
            Inserting(first, rest, key, left, right) == if n'.None? then None else Some(Entries(n'.value))
  {
    InsertingGives(part, 1, key, left, right);
    var all := Entries(part);
    if first == [] {
      assert rest == all && [] + [all[0]] == all[..1];
    } else {
      assert all[..1] == first && all[1..] == rest;
    }
  }

  /**
    The InternalNode constructor: copies a range of entries and adds a separator, if one is given,
    before the first greater key.
  */
  method CopyInserting(
    n: Node, begin: nat, count: nat, leftMost: Option<Node>, key: Option<Key>, left: Node, right: Node)
    returns (r: Option<seq<Entry>>)
    requires n.Internal? && |n.children| == |n.seps| + 1 && begin + count <= |n.children| && Sorted(n.seps)
    requires if begin == 0 then leftMost.None? && count > 0 else leftMost.Some?
    ensures var target := PartWith(n, begin, count, leftMost, key, left, right);
            r == if target.None? then None else Some(Entries(target.value))
  {
    ghost var part := Part(n, begin, count, leftMost);
    PartEntries(n, begin, count, leftMost);
    var first := if leftMost.Some? then [Entry(None, leftMost.value)] else [];
    var rest := Entries(n)[begin..begin + count];
    assert begin == 0 ==> rest[0] == Entries(n)[0];
    if key.Some? {
      CopyGives(part, first, rest, key.value, left, right);
    }
    r := CopyLoop(first, rest, key, left, right);
  }

  /** The halves PrepareForSplit asks for are those of a cut at n_left. */
  lemma HalvesAreParts(n: Node, m: nat)
    requires n.Internal? && |n.children| == |n.seps| + 1 && 0 < m <= |n.seps|
    ensures Part(n, 0, m, None) == CutLeft(n, m)
    ensures Part(n, m + 1, |n.children| - m - 1, Some(n.children[m])) == CutRight(n, m)
  {
  }
}
