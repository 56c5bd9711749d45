/**
  Level hashing: a table of two levels, each a row of four-slot buckets. A key has two candidate
  buckets in each level. A full table makes room by moving one item to its other bucket in the same
  level, or from the bottom level to the top, and grows by putting a new level on top of the old one.

  The table is modelled sequentially; its hash functions are arbitrary. A slot's token and entry
  are one value: an empty slot is one whose token is 0.
*/
module LevelHash {
  const SLOTS := 4

  type Key = string
  type Value = string

  datatype Item = Item(key: Key, value: Value)
  datatype Slot = Empty | Full(item: Item)
  datatype Hashes = Hashes(first: Key -> nat, second: Key -> nat)

  type Level = seq<Slot>

  function FirstIndex(hash: nat, capacity: nat): (b: nat)
    requires 2 <= capacity
    ensures b < capacity / 2
  {
    hash % (capacity / 2)
  }

  function SecondIndex(hash: nat, capacity: nat): (b: nat)
    requires 2 <= capacity
    ensures capacity / 2 <= b < capacity
  {
    hash % (capacity / 2) + capacity / 2
  }

  lemma PeriodicRemainder(x: nat, q: nat, n: nat)
    requires n > 0
    ensures (x + q * n) % n == x % n
  {
    var k, r := x / n, x % n;
    assert x == n * k + r;
    assert x + q * n == n * (k + q) + r;
    var k', r' := (x + q * n) / n, (x + q * n) % n;
    assert x + q * n == n * k' + r';
    OneRemainder(n, k + q, r, k', r');
  }

  lemma OneRemainder(n: nat, a: nat, r: nat, b: nat, r': nat)
    requires n > 0 && r < n && r' < n && n * a + r == n * b + r'
    ensures r == r' && a == b
  {
    if a < b {
      MoreBuckets(n, a, b);
    } else if b < a {
      MoreBuckets(n, b, a);
    }
  }

  lemma {:induction false} MoreBuckets(n: nat, a: nat, b: nat)
    requires a < b
    ensures n * a + n <= n * b
  {
    assert n * b == n * (b - 1) + n;
    if a < b - 1 {
      MoreBuckets(n, a, b - 1);
    }
  }

  /**
    Hashes that differ by a multiple of half the buckets share both buckets. IndexesReached: every
    bucket of the lower half is some hash's first, and every one of the upper half its second.
  */
  lemma IndexesRepeat(hash: nat, q: nat, capacity: nat)
    requires 2 <= capacity
    ensures FirstIndex(hash + q * (capacity / 2), capacity) == FirstIndex(hash, capacity)
    ensures SecondIndex(hash + q * (capacity / 2), capacity) == SecondIndex(hash, capacity)
  {
    var m := capacity / 2;
    PeriodicRemainder(hash, q, m);
    assert FirstIndex(hash + q * m, capacity) == (hash + q * m) % m;
  }

  lemma IndexesReached(b: nat, capacity: nat)
    requires 2 <= capacity && b < capacity / 2
    ensures FirstIndex(b, capacity) == b && SecondIndex(b, capacity) == b + capacity / 2
  {
    var m := capacity / 2;
    assert b == m * 0 + b;
    OneRemainder(m, 0, b, b / m, b % m);
  }

  /** Bucket b is one of the key's two candidates in a level. */
  predicate Home(h: Hashes, key: Key, capacity: nat, b: nat)
    requires 2 <= capacity
  {
    b == FirstIndex(h.first(key), capacity) || b == SecondIndex(h.second(key), capacity)
  }

  /** Every item of the level sits in a candidate bucket. */
  ghost predicate Placed(h: Hashes, s: Level, capacity: nat) {
    && 2 <= capacity && |s| == SLOTS * capacity
    && forall i :: 0 <= i < |s| && s[i].Full? ==> Home(h, s[i].item.key, capacity, i / SLOTS)
  }

  lemma PlacedSet(h: Hashes, s: Level, capacity: nat, i: nat, slot: Slot)
    requires Placed(h, s, capacity) && i < |s| && (slot.Full? ==> Home(h, slot.item.key, capacity, i / SLOTS))
    ensures Placed(h, s[i := slot], capacity)
  {
  }

  // ---------- Counting items ----------

  datatype Query = Exactly(item: Item) | WithKey(key: Key)

  predicate Hit(q: Query, slot: Slot) {
    slot.Full? && if q.Exactly? then slot.item == q.item else slot.item.key == q.key
  }

  function One(q: Query, slot: Slot): nat {
    if Hit(q, slot) then 1 else 0
  }

  function Count(s: Level, q: Query): nat {
    if s == [] then 0 else One(q, s[0]) + Count(s[1..], q)
  }

  lemma {:induction false} CountSet(s: Level, i: nat, slot: Slot, q: Query)
    requires i < |s|
    ensures Count(s[i := slot], q) == Count(s, q) - One(q, s[i]) + One(q, slot)
  {
    if i == 0 {
      assert s[i := slot][1..] == s[1..];
    } else {
      assert s[i := slot][1..] == s[1..][i - 1 := slot];
      CountSet(s[1..], i - 1, slot, q);
    }
  }

  lemma {:induction false} CountPositive(s: Level, q: Query, i: nat)
    requires i < |s| && Hit(q, s[i])
    ensures Count(s, q) > 0
  {
    if i > 0 {
      CountPositive(s[1..], q, i - 1);
    }
  }

  lemma {:induction false} CountZero(s: Level, q: Query)
    requires forall i :: 0 <= i < |s| ==> !Hit(q, s[i])
    ensures Count(s, q) == 0
  {
    if s != [] {
      CountZero(s[1..], q);
    }
  }

  // ---------- Looking for a slot ----------

  /** The first empty slot of two buckets, taking slot j of both before slot j + 1 of either; -1 if none. */
  function FirstEmpty(s: Level, f: nat, g: nat, j: nat): (i: int)
    requires j <= SLOTS && SLOTS * f + SLOTS <= |s| && SLOTS * g + SLOTS <= |s|
    ensures i == -1 || (0 <= i < |s| && s[i].Empty? && (i / SLOTS == f || i / SLOTS == g))
    ensures i == -1 ==> (forall k :: SLOTS * f + j <= k < SLOTS * f + SLOTS ==> s[k].Full?)
    ensures i == -1 ==> (forall k :: SLOTS * g + j <= k < SLOTS * g + SLOTS ==> s[k].Full?)
    decreases SLOTS - j
  {
    if j == SLOTS then -1
    else if s[SLOTS * f + j].Empty? then SLOTS * f + j
    else if s[SLOTS * g + j].Empty? then SLOTS * g + j
    else FirstEmpty(s, f, g, j + 1)
  }

  method FindEmpty(a: array<Slot>, f: nat, g: nat) returns (i: int)
    requires SLOTS * f + SLOTS <= a.Length && SLOTS * g + SLOTS <= a.Length
    ensures i == FirstEmpty(a[..], f, g, 0)
  {
    for j := 0 to SLOTS
      invariant FirstEmpty(a[..], f, g, 0) == FirstEmpty(a[..], f, g, j)
    {
      if a[SLOTS * f + j].Empty? {
        return SLOTS * f + j;
      }
      if a[SLOTS * g + j].Empty? {
        return SLOTS * g + j;
      }
    }
    return -1;
  }

  /** The first slot of a bucket that holds the key; -1 if none. */
  function FirstMatch(s: Level, b: nat, key: Key, j: nat): (i: int)
    requires j <= SLOTS && SLOTS * b + SLOTS <= |s|
    ensures i == -1 || (0 <= i < |s| && Hit(WithKey(key), s[i]) && i / SLOTS == b)
    ensures i == -1 ==> forall k :: SLOTS * b + j <= k < SLOTS * b + SLOTS ==> !Hit(WithKey(key), s[k])
    decreases SLOTS - j
  {
    if j == SLOTS then -1
    else if Hit(WithKey(key), s[SLOTS * b + j]) then SLOTS * b + j
    else FirstMatch(s, b, key, j + 1)
  }

  method FindKey(a: array<Slot>, b: nat, key: Key) returns (i: int)
    requires SLOTS * b + SLOTS <= a.Length
    ensures i == FirstMatch(a[..], b, key, 0)
  {
    for j := 0 to SLOTS
      invariant FirstMatch(a[..], b, key, 0) == FirstMatch(a[..], b, key, j)
    {
      if a[SLOTS * b + j].Full? && a[SLOTS * b + j].item.key == key {
        return SLOTS * b + j;
      }
    }
    return -1;
  }

  // ---------- Making room in a level ----------

  predicate BucketFull(s: Level, b: nat)
    requires SLOTS * b + SLOTS <= |s|
  {
    forall k :: SLOTS * b <= k < SLOTS * b + SLOTS ==> s[k].Full?
  }

  /** One item more and none lost. */
  ghost predicate Gains(s: Level, s': Level, item: Item) {
    forall q :: Count(s', q) == Count(s, q) + One(q, Full(item))
  }

  lemma GainsBySet(s: Level, i: nat, item: Item)
    requires i < |s| && s[i].Empty?
    ensures Gains(s, s[i := Full(item)], item)
  {
    forall q
      ensures Count(s[i := Full(item)], q) == Count(s, q) + One(q, Full(item))
    {
      CountSet(s, i, Full(item), q);
    }
  }

  /** An item moves to an empty slot and another takes its place. */
  lemma GainsByMove(s: Level, from: nat, to: nat, item: Item)
    requires from < |s| && to < |s| && s[to].Empty? && s[from].Full?
    ensures Gains(s, s[to := s[from]][from := Full(item)], item)
  {
    forall q
      ensures Count(s[to := s[from]][from := Full(item)], q) == Count(s, q) + One(q, Full(item))
    {
      CountSet(s, to, s[from], q);
      CountSet(s[to := s[from]], from, Full(item), q);
    }
  }

  /** The other candidate of an item that sits in bucket b. */
  function Other(h: Hashes, key: Key, capacity: nat, b: nat): (d: nat)
    requires 2 <= capacity
    ensures d < capacity && Home(h, key, capacity, d)
  {
    if FirstIndex(h.first(key), capacity) == b then SecondIndex(h.second(key), capacity)
    else FirstIndex(h.first(key), capacity)
  }

  /** The other candidate bucket of the item in slot k is full. */
  ghost predicate OtherFull(h: Hashes, s: Level, capacity: nat, b: nat, k: nat) {
    && 2 <= capacity && |s| == SLOTS * capacity && k < |s| && s[k].Full?
    && BucketFull(s, Other(h, s[k].item.key, capacity, b))
  }

  /** No item of the bucket can move to its other candidate. */
  ghost predicate Stuck(h: Hashes, s: Level, capacity: nat, b: nat) {
    forall k :: SLOTS * b <= k < SLOTS * b + SLOTS ==> OtherFull(h, s, capacity, b, k)
  }

  ghost predicate HomesFull(h: Hashes, s: Level, capacity: nat, key: Key) {
    && 2 <= capacity && |s| == SLOTS * capacity
    && BucketFull(s, FirstIndex(h.first(key), capacity)) && BucketFull(s, SecondIndex(h.second(key), capacity))
  }

  /** Placing an item in an empty slot of its candidates. */
  method TryPlace(h: Hashes, a: array<Slot>, capacity: nat, item: Item) returns (ok: bool)
    requires Placed(h, a[..], capacity)
    modifies a
    ensures Placed(h, a[..], capacity)
    ensures ok ==> Gains(old(a[..]), a[..], item)
    ensures !ok ==> a[..] == old(a[..])
    ensures !ok <==> HomesFull(h, old(a[..]), capacity, item.key)
  {
    var f, g := FirstIndex(h.first(item.key), capacity), SecondIndex(h.second(item.key), capacity);
    var i := FindEmpty(a, f, g);
    ok := i >= 0;
    if ok {
      PlacedSet(h, a[..], capacity, i, Full(item));
      GainsBySet(a[..], i, item);
      ghost var before := a[..];
      a[i] := Full(item);
      assert a[..] == before[i := Full(item)];
    }
  }

  /** Moves an item to its other bucket and puts the new one in its place. */
  method Displace(h: Hashes, a: array<Slot>, capacity: nat, from: nat, to: nat, item: Item)
    requires Placed(h, a[..], capacity) && from < a.Length && to < a.Length && a[from].Full? && a[to].Empty?
    requires Home(h, item.key, capacity, from / SLOTS) && Home(h, a[from].item.key, capacity, to / SLOTS)
    modifies a
    ensures Placed(h, a[..], capacity) && Gains(old(a[..]), a[..], item)
  {
    ghost var s, moved := a[..], a[from];
    PlacedSet(h, s, capacity, to, moved);
    PlacedSet(h, s[to := moved], capacity, from, Full(item));
    GainsByMove(s, from, to, item);
    a[to] := a[from];
    a[from] := Full(item);
    assert a[..] == s[to := moved][from := Full(item)];
  }

  /** An empty slot in the other candidate bucket of an item; -1 if that bucket is full. */
  method FindOther(h: Hashes, a: array<Slot>, capacity: nat, b: nat, from: nat) returns (to: int)
    requires 2 <= capacity && a.Length == SLOTS * capacity && from < a.Length && a[from].Full?
    ensures to == -1 <==> OtherFull(h, a[..], capacity, b, from)
    ensures to != -1 ==> 0 <= to < a.Length && a[to].Empty? && Home(h, a[from].item.key, capacity, to / SLOTS)
  {
    var d := Other(h, a[from].item.key, capacity, b);
    to := FindEmpty(a, d, d);
  }

  lemma BucketOf(b: nat, i: nat)
    requires i < SLOTS
    ensures (SLOTS * b + i) / SLOTS == b && (SLOTS * b) % SLOTS == 0
  {
  }

  /** try_movement: the first item of a full bucket that can move makes room for the new one. */
  method TryMovement(h: Hashes, a: array<Slot>, capacity: nat, b: nat, item: Item) returns (ok: bool)
    requires Placed(h, a[..], capacity) && b < capacity && BucketFull(a[..], b) && Home(h, item.key, capacity, b)
    modifies a
    ensures Placed(h, a[..], capacity)
    ensures ok ==> Gains(old(a[..]), a[..], item)
    ensures !ok ==> a[..] == old(a[..])
    ensures !ok <==> Stuck(h, old(a[..]), capacity, b)
  {
    for i := 0 to SLOTS
      invariant a[..] == old(a[..])
      invariant forall k :: SLOTS * b <= k < SLOTS * b + i ==> OtherFull(h, a[..], capacity, b, k)
    {
      var from := SLOTS * b + i;
      BucketOf(b, i);
      var to := FindOther(h, a, capacity, b, from);
      if to != -1 {
        Displace(h, a, capacity, from, to, item);
        return true;
      }
    }
    return false;
  }

  /** No item of a bottom bucket can move up. */
  ghost predicate StuckBelow(h: Hashes, top: Level, bottom: Level, capacity: nat, b: nat) {
    && 2 <= capacity && |top| == SLOTS * capacity && SLOTS * b + SLOTS <= |bottom| && BucketFull(bottom, b)
    && forall k :: SLOTS * b <= k < SLOTS * b + SLOTS ==> HomesFull(h, top, capacity, bottom[k].item.key)
  }

  /** b2t_movement: the first item of a full bottom bucket that fits into the top level moves there. */
  method MoveUp(h: Hashes, top: array<Slot>, bottom: array<Slot>, capacity: nat, b: nat) returns (p: int)
    requires top != bottom && Placed(h, top[..], capacity)
    requires SLOTS * b + SLOTS <= bottom.Length && BucketFull(bottom[..], b)
    modifies top, bottom
    ensures Placed(h, top[..], capacity)
    ensures p == -1 ==> top[..] == old(top[..]) && bottom[..] == old(bottom[..])
    ensures p == -1 ==> StuckBelow(h, top[..], bottom[..], capacity, b)
    ensures p != -1 ==> && SLOTS * b <= p < SLOTS * b + SLOTS && bottom[..] == old(bottom[..])[p := Empty]
                        && Gains(old(top[..]), top[..], old(bottom[p].item))
                        && !StuckBelow(h, old(top[..]), old(bottom[..]), capacity, b)
  {
    for i := 0 to SLOTS
      invariant top[..] == old(top[..]) && bottom[..] == old(bottom[..])
      invariant forall k :: SLOTS * b <= k < SLOTS * b + i ==> HomesFull(h, top[..], capacity, bottom[k].item.key)
    {
      p := SLOTS * b + i;
      var moved := bottom[p].item;
      var ok := TryPlace(h, top, capacity, moved);
      if ok {
        bottom[p] := Empty;
        return;
      }
    }
    return -1;
  }

  function Pow2(n: nat): (r: nat)
    ensures r > 0 && (n >= 1 ==> r >= 2) && (n >= 2 ==> r >= 4)
  {
    if n == 0 then 1 else 2 * Pow2(n - 1)
  }

  /** Two items with one key are two items with that key. */
  lemma {:induction false} CountDistinct(s: Level, key: Key, v: Value, w: Value)
    requires v != w
    ensures Count(s, WithKey(key)) >= Count(s, Exactly(Item(key, v))) + Count(s, Exactly(Item(key, w)))
  {
    if s != [] {
      CountDistinct(s[1..], key, v, w);
    }
  }

  lemma {:induction false} CountExact(s: Level, item: Item)
    ensures Count(s, Exactly(item)) <= Count(s, WithKey(item.key))
  {
    if s != [] {
      CountExact(s[1..], item);
    }
  }

  /** A key that its candidate buckets do not hold is not in the level. */
  lemma Absent(h: Hashes, s: Level, capacity: nat, key: Key)
    requires Placed(h, s, capacity)
    requires FirstMatch(s, FirstIndex(h.first(key), capacity), key, 0) == -1
    requires FirstMatch(s, SecondIndex(h.second(key), capacity), key, 0) == -1
    ensures Count(s, WithKey(key)) == 0
  {
    CountZero(s, WithKey(key));
  }

  method NewLevel(h: Hashes, capacity: nat) returns (a: array<Slot>)
    requires 2 <= capacity
    ensures fresh(a) && Placed(h, a[..], capacity) && forall q :: Count(a[..], q) == 0
  {
    a := new Slot[SLOTS * capacity](_ => Empty);
    forall q
      ensures Count(a[..], q) == 0
    {
      CountZero(a[..], q);
    }
  }

  class Table {
    const h: Hashes
    var levelSize: nat
    var capacity: nat
    var resizes: nat
    var top: array<Slot>
    var bottom: array<Slot>

    ghost predicate Valid()
      reads this, top, bottom
    {
      && top != bottom && 2 <= levelSize && capacity == Pow2(levelSize)
      && Placed(h, top[..], capacity) && Placed(h, bottom[..], capacity / 2)
    }

    /** How many live items of the table a query matches. */
    ghost function Live(q: Query): nat
      reads this, top, bottom
    {
      Count(top[..], q) + Count(bottom[..], q)
    }

    constructor (h: Hashes, levelSize: nat)
      requires 2 <= levelSize
      ensures Valid() && fresh(top) && fresh(bottom) && this.h == h && this.levelSize == levelSize
      ensures forall q :: Live(q) == 0
    {
      this.h := h;
      this.levelSize := levelSize;
      capacity := Pow2(levelSize);
      resizes := 0;
      assert Pow2(levelSize) == 2 * Pow2(levelSize - 1);
      var a := NewLevel(h, Pow2(levelSize));
      var b := NewLevel(h, Pow2(levelSize - 1));
      top, bottom := a, b;
    }

    /** The first live item with the key, the top level first; -1 if there is none. */
    method Find(key: Key) returns (inTop: bool, i: int)
      requires Valid()
      ensures i == -1 <==> Live(WithKey(key)) == 0
      ensures i != -1 ==> var s := if inTop then top[..] else bottom[..]; 0 <= i < |s| && Hit(WithKey(key), s[i])
    {
      inTop := true;
      i := FindKey(top, FirstIndex(h.first(key), capacity), key);
      if i == -1 {
        i := FindKey(top, SecondIndex(h.second(key), capacity), key);
      }
      if i == -1 {
        Absent(h, top[..], capacity, key);
        inTop := false;
        i := FindKey(bottom, FirstIndex(h.first(key), capacity / 2), key);
        if i == -1 {
          i := FindKey(bottom, SecondIndex(h.second(key), capacity / 2), key);
        }
      }
      if i == -1 {
        Absent(h, bottom[..], capacity / 2, key);
      } else {
        CountPositive(if inTop then top[..] else bottom[..], WithKey(key), i);
      }
    }

    /** The live items are the bindings of a map, each once. */
    ghost predicate Represents(m: map<Key, Value>)
      reads this, top, bottom
    {
      && (forall k :: Live(WithKey(k)) == if k in m then 1 else 0)
      && (forall k, v :: Live(Exactly(Item(k, v))) == if k in m && m[k] == v then 1 else 0)
    }

    /** level_query. */
    method Query(key: Key) returns (found: bool, value: Value)
      requires Valid()
      ensures found <==> Live(WithKey(key)) > 0
      ensures found ==> Live(Exactly(Item(key, value))) > 0
      ensures Live(WithKey(key)) <= 1 ==> forall v :: Live(Exactly(Item(key, v))) > 0 <==> found && v == value
    {
      var inTop, i := Find(key);
      found, value := i != -1, "";
      if found {
        ghost var s := if inTop then top[..] else bottom[..];
        value := if inTop then top[i].item.value else bottom[i].item.value;
        CountPositive(s, Exactly(Item(key, value)), i);
      }
      CountExact(top[..], Item(key, value));
      CountExact(bottom[..], Item(key, value));
      forall v | v != value
        ensures Live(WithKey(key)) >= Live(Exactly(Item(key, v))) + Live(Exactly(Item(key, value)))
      {
        CountDistinct(top[..], key, v, value);
        CountDistinct(bottom[..], key, v, value);
      }
    }

    /** level_update: the first item with the key, `was`, gets a new value. */
    method Update(key: Key, value: Value) returns (found: bool, ghost was: Item)
      requires Valid()
      modifies top, bottom
      ensures Valid()
      ensures found <==> old(Live(WithKey(key))) > 0
      ensures found ==> was.key == key && old(Live(Exactly(was))) > 0
      ensures found ==> forall q :: Live(q) == old(Live(q)) - One(q, Full(was)) + One(q, Full(Item(key, value)))
      ensures !found ==> forall q :: Live(q) == old(Live(q))
    {
      was := Item(key, value);
      var inTop, i := Find(key);
      found := i != -1;
      if found {
        was := Replace(inTop, i, Full(Item(key, value)), key);
      }
    }

    /** level_delete: the first item with the key, `was`, goes. */
    method Delete(key: Key) returns (found: bool, ghost was: Item)
      requires Valid()
      modifies top, bottom
      ensures Valid()
      ensures found <==> old(Live(WithKey(key))) > 0
      ensures found ==> was.key == key && old(Live(Exactly(was))) > 0
      ensures found ==> forall q :: Live(q) == old(Live(q)) - One(q, Full(was))
      ensures !found ==> forall q :: Live(q) == old(Live(q))
    {
      was := Item(key, "");
      var inTop, i := Find(key);
      found := i != -1;
      if found {
        was := Replace(inTop, i, Empty, key);
      }
    }

    /** Writes a slot that holds the key. */
    method Replace(inTop: bool, i: nat, slot: Slot, key: Key) returns (ghost was: Item)
      requires Valid() && (slot.Full? ==> slot.item.key == key)
      requires var s := if inTop then top[..] else bottom[..]; i < |s| && Hit(WithKey(key), s[i])
      modifies top, bottom
      ensures Valid() && was.key == key && old(Live(Exactly(was))) > 0
      ensures forall q :: Live(q) == old(Live(q)) - One(q, Full(was)) + One(q, slot)
    {
      ghost var s := if inTop then top[..] else bottom[..];
      was := s[i].item;
      CountPositive(s, Exactly(was), i);
      PlacedSet(h, s, if inTop then capacity else capacity / 2, i, slot);
      forall q
        ensures Count(s[i := slot], q) == Count(s, q) - One(q, Full(was)) + One(q, slot)
      {
        CountSet(s, i, slot, q);
      }
      if inTop {
        top[i] := slot;
        assert top[..] == s[i := slot];
      } else {
        bottom[i] := slot;
        assert bottom[..] == s[i := slot];
      }
    }

    /** Neither level has an empty candidate slot, or can get one by moving an item. */
    ghost predicate NoRoom(key: Key)
      requires Valid()
      reads this, top, bottom
    {
      var f, g := FirstIndex(h.first(key), capacity), SecondIndex(h.second(key), capacity);
      var f', g' := FirstIndex(h.first(key), capacity / 2), SecondIndex(h.second(key), capacity / 2);
      && HomesFull(h, top[..], capacity, key) && HomesFull(h, bottom[..], capacity / 2, key)
      && Stuck(h, top[..], capacity, f) && Stuck(h, top[..], capacity, g)
      && Stuck(h, bottom[..], capacity / 2, f') && Stuck(h, bottom[..], capacity / 2, g')
      && (resizes > 0 ==> && StuckBelow(h, top[..], bottom[..], capacity, f')
                          && StuckBelow(h, top[..], bottom[..], capacity, g'))
    }

    /** level_insert: an empty candidate slot, else a displacement within a level, else one from bottom to top. */
    method Insert(item: Item) returns (ok: bool)
      requires Valid()
      modifies top, bottom
      ensures Valid()
      ensures ok ==> forall q :: Live(q) == old(Live(q)) + One(q, Full(item))
      ensures !ok ==> top[..] == old(top[..]) && bottom[..] == old(bottom[..])
      ensures !ok <==> old(NoRoom(item.key))
    {
      var f, g := FirstIndex(h.first(item.key), capacity), SecondIndex(h.second(item.key), capacity);
      var f', g' := FirstIndex(h.first(item.key), capacity / 2), SecondIndex(h.second(item.key), capacity / 2);
      ok := TryPlace(h, top, capacity, item);
      if ok { return; }
      ok := TryPlace(h, bottom, capacity / 2, item);
      if ok { return; }
      ok := TryMovement(h, top, capacity, f, item);
      if ok { return; }
      ok := TryMovement(h, top, capacity, g, item);
      if ok { return; }
      ok := TryMovement(h, bottom, capacity / 2, f', item);
      if ok { return; }
      ok := TryMovement(h, bottom, capacity / 2, g', item);
      if ok || resizes == 0 { return; }
      ok := InsertBelow(item, f');
      if ok { return; }
      ok := InsertBelow(item, g');
    }

    /** Moves an item of a full bottom bucket up and takes its slot. */
    method InsertBelow(item: Item, b: nat) returns (ok: bool)
      requires Valid() && SLOTS * b + SLOTS <= bottom.Length && BucketFull(bottom[..], b)
      requires Home(h, item.key, capacity / 2, b)
      modifies top, bottom
      ensures Valid()
      ensures ok ==> forall q :: Live(q) == old(Live(q)) + One(q, Full(item))
      ensures !ok ==> top[..] == old(top[..]) && bottom[..] == old(bottom[..])
      ensures !ok <==> old(StuckBelow(h, top[..], bottom[..], capacity, b))
    {
      ghost var s := bottom[..];
      var p := MoveUp(h, top, bottom, capacity, b);
      ok := p != -1;
      if ok {
        bottom[p] := Full(item);
        assert bottom[..] == s[p := Full(item)];
        PlacedSet(h, s, capacity / 2, p, Full(item));
        forall q
          ensures Count(bottom[..], q) == Count(s, q) - One(q, s[p]) + One(q, Full(item))
        {
          CountSet(s, p, Full(item), q);
        }
      }
    }

    /**
      level_resize: a new level on top, the old bottom's items rehashed into it, the old top as the
      new bottom. False stands for the exit when an item finds both its new buckets full.
    */
    method Resize() returns (ok: bool)
      requires Valid()
      modifies this, bottom
      ensures ok ==> Valid() && levelSize == old(levelSize) + 1 && capacity == 2 * old(capacity)
      ensures ok ==> bottom == old(top) && fresh(top) && resizes == (old(resizes) + 1) % 256
      ensures ok ==> forall q :: Live(q) == old(Live(q))
      ensures !ok ==> top == old(top) && bottom == old(bottom)
      ensures !ok ==> exists to: Level :: Crowded(h, to, 2 * old(capacity), old(bottom[..]))
    {
      ghost var was := bottom[..];
      BucketOf(capacity / 2, 0);
      capacity := Pow2(levelSize + 1);
      assert capacity == 2 * old(capacity) && capacity / 2 == old(capacity);
      var newTop := NewLevel(h, capacity);
      ok := Rehash(h, newTop, bottom, capacity);
      if ok {
        levelSize := levelSize + 1;
        bottom := top;
        top := newTop;
        resizes := (resizes + 1) % 256;
      }
    }
  }

  /** Some item of a level finds both its buckets in another full, of other items of that level. */
  ghost predicate Crowded(h: Hashes, to: Level, capacity: nat, from: Level) {
    && Placed(h, to, capacity)
    && exists item: Item :: HomesFull(h, to, capacity, item.key)
                            && forall q :: Count(to, q) + One(q, Full(item)) <= Count(from, q)
  }

  lemma OneOfMany(h: Hashes, to: Level, capacity: nat, all: Level, left: Level, p: nat)
    requires Placed(h, to, capacity) && p < |left| && left[p].Full? && HomesFull(h, to, capacity, left[p].item.key)
    requires forall q :: Count(to, q) + Count(left, q) == Count(all, q)
    ensures Crowded(h, to, capacity, all)
  {
    var item := left[p].item;
    forall q
      ensures Count(to, q) + One(q, Full(item)) <= Count(all, q)
    {
      CountSet(left, p, Empty, q);
    }
  }

  /** Moves every item of a level into an empty one twice its size or more. */
  method Rehash(h: Hashes, to: array<Slot>, from: array<Slot>, capacity: nat) returns (ok: bool)
    requires to != from && Placed(h, to[..], capacity) && from.Length % SLOTS == 0 && forall q :: Count(to[..], q) == 0
    modifies to, from
    ensures ok ==> Placed(h, to[..], capacity) && forall q :: Count(to[..], q) == old(Count(from[..], q))
    ensures !ok ==> Crowded(h, to[..], capacity, old(from[..]))
  {
    ghost var all := from[..];
    for b := 0 to from.Length / SLOTS
      invariant Placed(h, to[..], capacity)
      invariant forall k :: 0 <= k < SLOTS * b ==> from[k].Empty?
      invariant forall q :: Count(to[..], q) + Count(from[..], q) == old(Count(from[..], q))
    {
      for i := 0 to SLOTS
        invariant Placed(h, to[..], capacity)
        invariant forall k :: 0 <= k < SLOTS * b + i ==> from[k].Empty?
        invariant forall q :: Count(to[..], q) + Count(from[..], q) == old(Count(from[..], q))
      {
        var p := SLOTS * b + i;
        if from[p].Full? {
          ok := TryPlace(h, to, capacity, from[p].item);
          if !ok {
            OneOfMany(h, to[..], capacity, all, from[..], p);
            return;
          }
          Clear(from, p);
        }
      }
    }
    forall q
      ensures Count(from[..], q) == 0
    {
      CountZero(from[..], q);
    }
    ok := true;
  }

  method Clear(a: array<Slot>, p: nat)
    requires p < a.Length && a[p].Full?
    modifies a
    ensures a[..] == old(a[..])[p := Empty]
    ensures forall q :: Count(a[..], q) == old(Count(a[..], q)) - One(q, old(a[p]))
  {
    ghost var s := a[..];
    a[p] := Empty;
    assert a[..] == s[p := Empty];
    forall q
      ensures Count(a[..], q) == Count(s, q) - One(q, s[p])
    {
      CountSet(s, p, Empty, q);
    }
  }

  datatype Op =
    | InsertOp(item: Item)
    | UpdateOp(key: Key, value: Value)
    | DeleteOp(key: Key)
    | QueryOp(key: Key)
    | ResizeOp

  /** One operation of a history: what it reported, and the item it replaced or removed. */
  datatype Call = Call(op: Op, ok: bool, value: Value, was: Item)

  /** What an operation adds to the number of live items that answer q. */
  function Change(c: Call, q: Query): int {
    if !c.ok then 0
    else
      match c.op
      case InsertOp(item) => One(q, Full(item))
      case UpdateOp(key, value) => One(q, Full(Item(key, value))) - One(q, Full(c.was))
      case DeleteOp(_) => 0 - One(q, Full(c.was))
      case QueryOp(_) => 0
      case ResizeOp => 0
  }

  predicate Looks(op: Op) {
    op.UpdateOp? || op.DeleteOp? || op.QueryOp?
  }

  /** One operation on any table, repeated keys or not; a resize that fails ends the program. */
  method Operate(t: Table, op: Op) returns (ok: bool, value: Value, ghost was: Item)
    requires t.Valid()
    modifies t, t.top, t.bottom
    ensures !op.ResizeOp? || ok ==>
              t.Valid() && forall q :: t.Live(q) == old(t.Live(q)) + Change(Call(op, ok, value, was), q)
    ensures Looks(op) ==> (ok <==> old(t.Live(WithKey(op.key))) > 0)
    ensures (op.UpdateOp? || op.DeleteOp?) && ok ==> was.key == op.key && old(t.Live(Exactly(was))) > 0
    ensures op.QueryOp? && ok ==> old(t.Live(Exactly(Item(op.key, value)))) > 0
    ensures op.InsertOp? ==> (!ok <==> old(t.NoRoom(op.item.key)))
    ensures if op.ResizeOp? && ok then t.bottom == old(t.top) && fresh(t.top)
            else t.top == old(t.top) && t.bottom == old(t.bottom)
  {
    value, was := "", Item("", "");
    match op
    case InsertOp(item) => ok := t.Insert(item);
    case UpdateOp(key, v) => ok, was := t.Update(key, v);
    case DeleteOp(key) => ok, was := t.Delete(key);
    case QueryOp(key) => ok, value := t.Query(key);
    case ResizeOp => ok := t.Resize();
  }

  // ---------- Histories ----------

  /** The live items that answer q after a history that started with the levels a and b. */
  function LiveAt(a: Level, b: Level, history: seq<Call>, q: Query): int {
    if history == [] then Count(a, q) + Count(b, q)
    else
      var n := |history| - 1;
      LiveAt(a, b, history[..n], q) + Change(history[n], q)
  }

  /** What an operation reported agrees with the live items at its time. */
  ghost predicate Told(a: Level, b: Level, before: seq<Call>, c: Call) {
    && (Looks(c.op) ==> (c.ok <==> LiveAt(a, b, before, WithKey(c.op.key)) > 0))
    && ((c.op.UpdateOp? || c.op.DeleteOp?) && c.ok ==>
          c.was.key == c.op.key && LiveAt(a, b, before, Exactly(c.was)) > 0)
    && (c.op.QueryOp? && c.ok ==> LiveAt(a, b, before, Exactly(Item(c.op.key, c.value))) > 0)
  }

  ghost predicate AllTold(a: Level, b: Level, history: seq<Call>) {
    forall i :: 0 <= i < |history| ==> Told(a, b, history[..i], history[i])
  }

  lemma AllToldNext(a: Level, b: Level, history: seq<Call>, c: Call)
    requires AllTold(a, b, history) && Told(a, b, history, c)
    ensures AllTold(a, b, history + [c])
    ensures forall q :: LiveAt(a, b, history + [c], q) == LiveAt(a, b, history, q) + Change(c, q)
  {
    var all := history + [c];
    assert all[..|history|] == history;
    forall i | 0 <= i < |all|
      ensures Told(a, b, all[..i], all[i])
    {
      assert i < |history| ==> all[..i] == history[..i];
    }
  }

  /** The last operation was a resize that found no room, which ends the program. */
  predicate Exited(ops: seq<Op>, oks: seq<bool>) {
    0 < |oks| <= |ops| && ops[|oks| - 1].ResizeOp? && !oks[|oks| - 1]
  }

  /** The history is that of the operations done and what they reported. */
  ghost predicate Records(history: seq<Call>, ops: seq<Op>, oks: seq<bool>, values: seq<Value>) {
    && |history| == |oks| == |values| <= |ops|
    && forall i :: 0 <= i < |history| ==>
         history[i].op == ops[i] && history[i].ok == oks[i] && history[i].value == values[i]
  }

  lemma RecordsNext(history: seq<Call>, ops: seq<Op>, oks: seq<bool>, values: seq<Value>, c: Call)
    requires Records(history, ops, oks, values) && |oks| < |ops| && c.op == ops[|oks|]
    ensures Records(history + [c], ops, oks + [c.ok], values + [c.value])
  {
  }

  /** One more operation of a history. */
  method OperateNext(t: Table, op: Op, ghost a: Level, ghost b: Level, ghost history: seq<Call>)
    returns (ok: bool, value: Value, ghost c: Call)
    requires t.Valid() && AllTold(a, b, history) && forall q :: t.Live(q) == LiveAt(a, b, history, q)
    modifies t, t.top, t.bottom
    ensures c.op == op && c.ok == ok && c.value == value && AllTold(a, b, history + [c])
    ensures !op.ResizeOp? || ok ==> t.Valid() && forall q :: t.Live(q) == LiveAt(a, b, history + [c], q)
    ensures if op.ResizeOp? && ok then t.bottom == old(t.top) && fresh(t.top)
            else t.top == old(t.top) && t.bottom == old(t.bottom)
  {
    ghost var was;
    ok, value, was := Operate(t, op);
    c := Call(op, ok, value, was);
    AllToldNext(a, b, history, c);
  }

  /**
    Main result: any sequence of inserts, updates, deletes, queries and resizes, with repeated keys
    or without, gains one item for each insert that succeeds, loses one for each delete that
    succeeds, loses none otherwise, and reports what is live. Only a resize that finds no room stops
    it short.
  */
  method Run(t: Table, ops: seq<Op>) returns (oks: seq<bool>, values: seq<Value>, ghost history: seq<Call>)
    requires t.Valid()
    modifies t, t.top, t.bottom
    ensures Records(history, ops, oks, values) && AllTold(old(t.top[..]), old(t.bottom[..]), history)
    ensures !Exited(ops, oks) ==> |oks| == |ops| && t.Valid()
    ensures !Exited(ops, oks) ==> forall q :: t.Live(q) == LiveAt(old(t.top[..]), old(t.bottom[..]), history, q)
  {
    oks, values, history := [], [], [];
    ghost var a, b := t.top[..], t.bottom[..];
    for i := 0 to |ops|
      invariant |oks| == i && !Exited(ops, oks) && t.Valid()
      invariant Records(history, ops, oks, values) && AllTold(a, b, history)
      invariant forall q :: t.Live(q) == LiveAt(a, b, history, q)
      invariant fresh({t.top, t.bottom} - {old(t.top), old(t.bottom)})
    {
      ghost var c;
      var ok, value;
      ok, value, c := OperateNext(t, ops[i], a, b, history);
      RecordsNext(history, ops, oks, values, c);
      oks, values, history := oks + [ok], values + [value], history + [c];
      if ops[i].ResizeOp? && !ok {
        return;
      }
    }
  }

  // ---------- Histories in which no key is bound twice ----------

  /** What an operation does to a map, given whether it reported success. */
  function MapAfter(m: map<Key, Value>, op: Op, ok: bool): map<Key, Value> {
    if !ok then m
    else
      match op
      case InsertOp(item) => m[item.key := item.value]
      case UpdateOp(key, value) => m[key := value]
      case DeleteOp(key) => m - {key}
      case QueryOp(_) => m
      case ResizeOp => m
  }

  function MapOf(m: map<Key, Value>, history: seq<Call>): map<Key, Value> {
    if history == [] then m
    else
      var n := |history| - 1;
      MapAfter(MapOf(m, history[..n]), history[n].op, history[n].ok)
  }

  /** The live items after a history are the bindings of a map, each once. */
  ghost predicate Mapped(a: Level, b: Level, history: seq<Call>, m: map<Key, Value>) {
    && (forall k :: LiveAt(a, b, history, WithKey(k)) == if k in m then 1 else 0)
    && (forall k, v :: LiveAt(a, b, history, Exactly(Item(k, v))) == if k in m && m[k] == v then 1 else 0)
  }

  /** Every insert came when its key was absent: never bound, deleted since, or not inserted for lack of room. */
  ghost predicate FoundAbsent(m: map<Key, Value>, history: seq<Call>) {
    forall i :: 0 <= i < |history| && history[i].op.InsertOp? ==> history[i].op.item.key !in MapOf(m, history[..i])
  }

  /** What an operation reported agrees with the map. */
  ghost predicate Answered(m: map<Key, Value>, c: Call) {
    && (Looks(c.op) ==> (c.ok <==> c.op.key in m))
    && (c.op.QueryOp? && c.ok ==> m[c.op.key] == c.value)
  }

  lemma MappedNext(a: Level, b: Level, history: seq<Call>, c: Call, m: map<Key, Value>)
    requires Mapped(a, b, history, m) && Told(a, b, history, c)
    requires c.op.InsertOp? ==> c.op.item.key !in m
    ensures Mapped(a, b, history + [c], MapAfter(m, c.op, c.ok)) && Answered(m, c)
  {
    var all := history + [c];
    assert all[..|history|] == history;
    assert forall q :: LiveAt(a, b, all, q) == LiveAt(a, b, history, q) + Change(c, q);
    if (c.op.UpdateOp? || c.op.DeleteOp?) && c.ok {
      assert c.was == Item(c.op.key, m[c.op.key]);
    }
  }

  lemma PrefixesAgree(history: seq<Call>, before: seq<Call>)
    requires history != [] && before == history[..|history| - 1]
    ensures forall i :: 0 <= i < |history| ==> before[..i] == history[..i]
    ensures forall i :: 0 <= i < |before| ==> before[i] == history[i]
  {
  }

  /**
    Main result: as long as every insert comes when its key is absent, the table stays equal to the
    map, and every report is what the map says.
  */
  lemma {:induction false} HistoryIsMap(a: Level, b: Level, history: seq<Call>, m: map<Key, Value>)
    requires AllTold(a, b, history) && Mapped(a, b, [], m) && FoundAbsent(m, history)
    ensures Mapped(a, b, history, MapOf(m, history))
    ensures forall i :: 0 <= i < |history| ==> Answered(MapOf(m, history[..i]), history[i])
  {
    if history != [] {
      var n := |history| - 1;
      var before, c := history[..n], history[n];
      PrefixesAgree(history, before);
      HistoryIsMap(a, b, before, m);
      MappedNext(a, b, before, c, MapOf(m, before));
      assert before + [c] == history;
    }
  }

  /** Whether the key may be bound before operation n: bound at first or inserted, and not deleted since. */
  predicate MayHold(m: map<Key, Value>, ops: seq<Op>, n: nat, key: Key)
    requires n <= |ops|
  {
    if n == 0 then key in m
    else
      var op := ops[n - 1];
      if op.InsertOp? && op.item.key == key then true
      else if op.DeleteOp? && op.key == key then false
      else MayHold(m, ops, n - 1, key)
  }

  /** A condition on the operations alone: no key is inserted again without a delete in between. */
  predicate InsertsAbsent(m: map<Key, Value>, ops: seq<Op>) {
    forall i :: 0 <= i < |ops| && ops[i].InsertOp? ==> !MayHold(m, ops, i, ops[i].item.key)
  }

  lemma {:induction false} HeldOnlyIf(m: map<Key, Value>, history: seq<Call>, ops: seq<Op>, key: Key)
    requires |history| <= |ops| && forall i :: 0 <= i < |history| ==> history[i].op == ops[i]
    requires forall i :: 0 <= i < |history| ==> Answered(MapOf(m, history[..i]), history[i])
    requires key in MapOf(m, history)
    ensures MayHold(m, ops, |history|, key)
  {
    if history != [] {
      var n := |history| - 1;
      var before, c := history[..n], history[n];
      assert forall i :: 0 <= i <= n ==> before[..i] == history[..i];
      assert Answered(MapOf(m, before), c);
      if key in MapOf(m, before) {
        HeldOnlyIf(m, before, ops, key);
      }
    }
  }

  lemma AbsentNext(m: map<Key, Value>, history: seq<Call>, before: seq<Call>)
    requires history != [] && before == history[..|history| - 1] && FoundAbsent(m, before)
    requires var c := history[|history| - 1]; c.op.InsertOp? ==> c.op.item.key !in MapOf(m, before)
    ensures FoundAbsent(m, history)
  {
    PrefixesAgree(history, before);
  }

  /** Main result: that condition is enough for every insert to find its key absent. */
  lemma {:induction false} InsertsFindAbsent(a: Level, b: Level, history: seq<Call>, m: map<Key, Value>, ops: seq<Op>)
    requires AllTold(a, b, history) && Mapped(a, b, [], m) && InsertsAbsent(m, ops)
    requires |history| <= |ops| && forall i :: 0 <= i < |history| ==> history[i].op == ops[i]
    ensures FoundAbsent(m, history)
  {
    if history != [] {
      var n := |history| - 1;
      var before, c := history[..n], history[n];
      PrefixesAgree(history, before);
      InsertsFindAbsent(a, b, before, m, ops);
      HistoryIsMap(a, b, before, m);
      if c.op.InsertOp? && c.op.item.key in MapOf(m, before) {
        HeldOnlyIf(m, before, ops, c.op.item.key);
      }
      AbsentNext(m, history, before);
    }
  }

  /** Main result: a sequence that inserts no key again without deleting it keeps a table equal to the map. */
  method RunAsMap(t: Table, ops: seq<Op>, ghost m: map<Key, Value>)
    returns (oks: seq<bool>, values: seq<Value>, ghost history: seq<Call>)
    requires t.Valid() && t.Represents(m) && InsertsAbsent(m, ops)
    modifies t, t.top, t.bottom
    ensures Records(history, ops, oks, values)
    ensures forall i :: 0 <= i < |history| ==> Answered(MapOf(m, history[..i]), history[i])
    ensures !Exited(ops, oks) ==> |oks| == |ops| && t.Valid() && t.Represents(MapOf(m, history))
  {
    ghost var a, b := t.top[..], t.bottom[..];
    assert forall q :: LiveAt(a, b, [], q) == t.Live(q);
    oks, values, history := Run(t, ops);
    InsertsFindAbsent(a, b, history, m, ops);
    HistoryIsMap(a, b, history, m);
  }
}
