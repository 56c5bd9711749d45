/**
  The Murmur hashes. The one-shot forms read four bytes at a time, little-endian; the others must
  give the same hash although they read single bytes, aligned words, or the key in chunks.
  A key is its bytes; `align` is the low two bits of its address.
*/
module Murmur {
  import opened Words

  datatype Version = V1 | V2

  const M1 := 0xc6a4a793
  const M2 := 0x5bd1e995

  // ---------- What the hashes are ----------

  function Mix(v: Version, h: nat, k: nat): nat {
    if v.V1? then Mix1(h, k) else Mix2(h, k)
  }

  /** The whole words of a key, mixed in one after the other. */
  function Blocks(v: Version, h: nat, s: seq<Byte>): nat
    decreases |s|
  {
    if |s| < 4 then h else Blocks(v, Mix(v, h, Load(s)), s[4..])
  }

  /** The bytes after the last whole word. */
  function Rest(s: seq<Byte>): (r: seq<Byte>)
    ensures |r| < 4
  {
    if |s| < 4 then s else Rest(s[4..])
  }

  function Mul(x: nat, y: nat): nat {
    x * y % WRAP
  }

  function Mix1(h: nat, k: nat): nat {
    var x := Mul(Add(h, k), M1);
    Xor(x, x / 0x1_0000)
  }

  function Finish1(h: nat): nat {
    var x := Mul(h, M1);
    var y := Mul(Xor(x, x / 0x400), M1);
    Xor(y, y / 0x2_0000)
  }

  function Hash1(key: seq<Byte>, seed: nat): nat {
    var h := Blocks(V1, Xor(seed, Mul(|key|, M1)), key);
    Finish1(if Rest(key) == [] then h else Mix1(h, Load(Rest(key))))
  }

  function Mix2(h: nat, k: nat): nat {
    var x := Mul(k, M2);
    var y := Mul(Xor(x, x / 0x100_0000), M2);
    Xor(Mul(h, M2), y)
  }

  function Finish2(h: nat): nat {
    var x := Mul(Xor(h, h / 0x2000), M2);
    Xor(x, x / 0x8000)
  }

  function Hash2(key: seq<Byte>, seed: nat): nat {
    var h := Blocks(V2, Xor(seed, |key| % WRAP), key);
    Finish2(if Rest(key) == [] then h else Mul(Xor(h, Load(Rest(key))), M2))
  }

  function Hash2A(key: seq<Byte>, seed: nat): nat {
    var h := Blocks(V2, seed, key);
    Finish2(Mix2(Mix2(h, Load(Rest(key))), |key| % WRAP))
  }

  // ---------- The last few bytes ----------

  lemma XorJoin(h: nat, x: nat, y: nat, n: nat)
    requires n <= 3 && x < Scale(n)
    ensures Xor(Xor(h, Up(y, n)), x) == Xor(h, x + Up(y, n))
  {
    XorAssociative(h, Up(y, n), x);
    Join(x, y, n);
  }

  lemma XorHigh(h: nat, b: nat, c: nat)
    requires b < 256
    ensures Xor(Xor(h, Up(c, 2)), Up(b, 1)) == Xor(h, Up(b + c * 0x100, 1))
  {
    XorJoin(h, Up(b, 1), c, 2);
  }

  lemma OrHigh(b: nat, c: nat)
    requires b < 256
    ensures Or(Or(0, Up(c, 2)), Up(b, 1)) == Up(b + c * 0x100, 1)
  {
    Join(Up(b, 1), c, 2);
  }

  /** Up to three bytes gathered with shifts and ors, the highest first. */
  method Gather(data: seq<Byte>, n: nat) returns (t: nat)
    requires n <= 3 && n <= |data|
    ensures t == Load(data[..n])
  {
    t := 0;
    if n == 3 {
      t := Or(t, Up(data[2], 2));
    }
    if n >= 2 {
      t := Or(t, Up(data[1], 1));
    }
    if n >= 1 {
      OrHigh(At(data, 1), At(data, 2));
      Join(data[0], At(data, 1) + At(data, 2) * 0x100, 1);
      Join(data[0], At(data, 1), 1);
      t := Or(t, data[0]);
    }
  }

  /** The tail of MurmurHash2 and its variants. */
  method Tail2(h0: nat, data: seq<Byte>) returns (h: nat)
    requires |data| <= 3
    ensures h == if data == [] then h0 else Mul(Xor(h0, Load(data)), M2)
  {
    h := h0;
    if |data| == 3 {
      h := Xor(h, Up(data[2], 2));
    }
    if |data| >= 2 {
      h := Xor(h, Up(data[1], 1));
    }
    if |data| >= 1 {
      XorHigh(h0, At(data, 1), At(data, 2));
      XorJoin(h0, data[0], At(data, 1) + At(data, 2) * 0x100, 1);
      XorJoin(h0, data[0], At(data, 1), 1);
      h := Xor(h, data[0]);
      h := Mul(h, M2);
    }
  }

  function Add(x: nat, y: nat): nat {
    (x + y) % WRAP
  }

  lemma AddAdd(h: nat, x: nat, y: nat)
    ensures Add(Add(h, x), y) == Add(h, x + y)
  {
  }

  lemma AddThree(h: nat, a: nat, b: nat, c: nat)
    ensures Add(Add(Add(h, Up(c, 2)), Up(b, 1)), a) == Add(h, Four(a, b, c, 0))
    ensures Add(Add(h, Up(b, 1)), a) == Add(h, Four(a, b, 0, 0))
  {
    AddAdd(h, Up(c, 2), Up(b, 1));
    AddAdd(h, Up(c, 2) + Up(b, 1), a);
    AddAdd(h, Up(b, 1), a);
  }

  /** The tail of MurmurHash1 and its variant. */
  method Tail1(h0: nat, data: seq<Byte>) returns (h: nat)
    requires |data| <= 3
    ensures h == if data == [] then h0 else Mix1(h0, Load(data))
  {
    h := h0;
    if |data| == 3 {
      h := Add(h, Up(data[2], 2));
    }
    if |data| >= 2 {
      h := Add(h, Up(data[1], 1));
    }
    if |data| >= 1 {
      AddThree(h0, data[0], At(data, 1), At(data, 2));
      h := Add(h, data[0]);
      h := Mul(h, M1);
      h := Xor(h, h / 0x1_0000);
    }
  }

  // ---------- The one-shot forms ----------

  method MurmurHash1(key: seq<Byte>, seed: nat) returns (h: nat)
    ensures h == Hash1(key, seed)
  {
    h := Xor(seed, Mul(|key|, M1));
    var data := key;
    while |data| >= 4
      invariant Blocks(V1, Xor(seed, Mul(|key|, M1)), key) == Blocks(V1, h, data) && Rest(key) == Rest(data)
    {
      h := Mix1(h, Load(data));
      data := data[4..];
    }
    h := Tail1(h, data);
    h := Finish1(h);
  }

  method MurmurHash2(key: seq<Byte>, seed: nat) returns (h: nat)
    ensures h == Hash2(key, seed)
  {
    h := Xor(seed, |key| % WRAP);
    var data := key;
    while |data| >= 4
      invariant Blocks(V2, Xor(seed, |key| % WRAP), key) == Blocks(V2, h, data) && Rest(key) == Rest(data)
    {
      h := Mix2(h, Load(data));
      data := data[4..];
    }
    h := Tail2(h, data);
    h := Finish2(h);
  }

  method MurmurHash2A(key: seq<Byte>, seed: nat) returns (h: nat)
    ensures h == Hash2A(key, seed)
  {
    h := seed;
    var data := key;
    while |data| >= 4
      invariant Blocks(V2, seed, key) == Blocks(V2, h, data) && Rest(key) == Rest(data)
    {
      h := Mix2(h, Load(data));
      data := data[4..];
    }
    var t := Tail2A(data);
    h := Mix2(h, t);
    h := Mix2(h, |key| % WRAP);
    h := Finish2(h);
  }

  /** The tail of MurmurHash2A: the last bytes xored into a zero word. */
  method Tail2A(data: seq<Byte>) returns (t: nat)
    requires |data| <= 3
    ensures t == Load(data)
  {
    t := 0;
    if |data| == 3 {
      t := Xor(t, Up(data[2], 2));
    }
    if |data| >= 2 {
      t := Xor(t, Up(data[1], 1));
    }
    if |data| >= 1 {
      XorHigh(0, At(data, 1), At(data, 2));
      XorJoin(0, data[0], At(data, 1) + At(data, 2) * 0x100, 1);
      XorJoin(0, data[0], At(data, 1), 1);
      t := Xor(t, data[0]);
    }
  }

  // ---------- Reading bytes ----------

  /** Four bytes gathered with shifts and ors, the lowest first. */
  method LoadBytes(data: seq<Byte>) returns (k: nat)
    requires |data| >= 4
    ensures k == Load(data)
  {
    k := data[0];
    Join(k, data[1], 1);
    k := Or(k, Up(data[1], 1));
    Join(k, data[2], 2);
    k := Or(k, Up(data[2], 2));
    Join(k, data[3], 3);
    k := Or(k, Up(data[3], 3));
  }

  /** Main result: the byte-by-byte form gives the hash of MurmurHash2. */
  method MurmurHashNeutral2(key: seq<Byte>, seed: nat) returns (h: nat)
    ensures h == Hash2(key, seed)
  {
    h := Xor(seed, |key| % WRAP);
    var data := key;
    while |data| >= 4
      invariant Blocks(V2, Xor(seed, |key| % WRAP), key) == Blocks(V2, h, data) && Rest(key) == Rest(data)
    {
      var k := LoadBytes(data);
      h := Mix2(h, k);
      data := data[4..];
    }
    h := Tail2(h, data);
    h := Finish2(h);
  }

  // ---------- Reading aligned words ----------

  /** One word of the unaligned stream, made of the bytes held back and the next aligned word. */
  lemma NextBlock(v: Version, h: nat, held: seq<Byte>, data: seq<Byte>, align: nat)
    requires 1 <= align <= 3 && |held| == 4 - align && |data| >= align
    ensures Blocks(v, h, held + data) == Blocks(v, Mix(v, h, Load(held + data[..align])), data[align..])
    ensures Rest(held + data) == Rest(data[align..])
  {
    assert (held + data)[4..] == data[align..];
    assert Load(held + data) == Load(held + data[..align]);
  }

  lemma NextWord(held: seq<Byte>, data: seq<Byte>, align: nat)
    requires 1 <= align <= 3 && |held| == 4 - align && |data| >= 4
    ensures Or(Load(held), Left(Load(data[..4]), 4 - align)) == Load(held + data[..align])
    ensures Right(Load(data[..4]), align) == Load(data[align..4])
    ensures data[align..] == data[align..4] + data[4..]
  {
    Straddle(held, data[..4]);
    assert Load(held + data[..4]) == Load(held + data[..align]);
    RightOfLoad(data[..4], align);
    assert data[..4][align..] == data[align..4];
    CutTwice(data, align);
  }

  lemma CutTwice(data: seq<Byte>, align: nat)
    requires align <= 4 <= |data|
    ensures data[align..] == data[align..4] + data[4..]
  {
    var rest := data[align..4] + data[4..];
    assert |rest| == |data[align..]|;
    forall i | 0 <= i < |rest|
      ensures rest[i] == data[align..][i]
    {
      assert rest[i] == data[align + i];
    }
  }

  /** The loop over aligned words: t holds back the last bytes read, in its high end. */
  method AlignedBlocks(v: Version, h0: nat, t0: nat, data0: seq<Byte>, align: nat, ghost held0: seq<Byte>)
    returns (h: nat, t: nat, data: seq<Byte>, ghost held: seq<Byte>)
    requires 1 <= align <= 3 && |held0| == 4 - align && Right(t0, align) == Load(held0)
    ensures |data| < 4 && |held| == 4 - align && Right(t, align) == Load(held)
    ensures Blocks(v, h0, held0 + data0) == Blocks(v, h, held + data) && Rest(held0 + data0) == Rest(held + data)
  {
    h, t, data, held := h0, t0, data0, held0;
    while |data| >= 4
      invariant |held| == 4 - align && Right(t, align) == Load(held)
      invariant Blocks(v, h0, held0 + data0) == Blocks(v, h, held + data) && Rest(held0 + data0) == Rest(held + data)
    {
      NextBlock(v, h, held, data, align);
      NextWord(held, data, align);
      var d := Load(data[..4]);
      t := Or(Right(t, align), Left(d, 4 - align));
      h := Mix(v, h, t);
      t := d;
      held := data[align..4];
      data := data[4..];
    }
  }

  /** Loading the bytes before the first aligned word. */
  method Preload(key: seq<Byte>, align: nat) returns (t: nat, data: seq<Byte>, ghost held: seq<Byte>)
    requires 1 <= align <= 3 && |key| >= 4
    ensures |held| == 4 - align && held + data == key && Right(t, align) == Load(held)
  {
    held := key[..4 - align];
    t := Gather(key, 4 - align);
    UpAndDown(held, align);
    t := Left(t, align);
    data := key[4 - align..];
  }

  /** Main result: at every alignment the aligned form gives the hash of MurmurHash2. */
  method MurmurHashAligned2(key: seq<Byte>, seed: nat, align: nat) returns (h: nat)
    requires align <= 3
    ensures h == Hash2(key, seed)
  {
    if align == 0 || |key| < 4 {
      h := MurmurHash2(key, seed);
      return;
    }
    ghost var held;
    var t, data;
    h := Xor(seed, |key| % WRAP);
    t, data, held := Preload(key, align);
    h, t, data, held := AlignedBlocks(V2, h, t, data, align, held);
    var n := if |data| >= align then align else |data|;
    var d := Gather(data, n);
    Straddle(held, data[..n]);
    var k := Or(Right(t, align), Left(d, 4 - align));
    if |data| >= align {
      NextBlock(V2, h, held, data, align);
      h := Mix2(h, k);
      h := Tail2(h, data[align..]);
    } else {
      assert data[..n] == data;
      h := Mul(Xor(h, k), M2);
    }
    h := Finish2(h);
  }

  /** Main result: at every alignment the aligned form gives the hash of MurmurHash1. */
  method MurmurHash1Aligned(key: seq<Byte>, seed: nat, align: nat) returns (h: nat)
    requires align <= 3
    ensures h == Hash1(key, seed)
  {
    if align == 0 || |key| < 4 {
      h := MurmurHash1(key, seed);
      return;
    }
    ghost var held;
    var t, data;
    h := Xor(seed, Mul(|key|, M1));
    t, data, held := Preload(key, align);
    h, t, data, held := AlignedBlocks(V1, h, t, data, align, held);
    var pack := if |data| < align then |data| else align;
    var d := Gather(data, pack);
    Straddle(held, data[..pack]);
    if |data| >= align {
      NextBlock(V1, h, held, data, align);
    } else {
      assert data[..pack] == data;
    }
    h := Mix1(h, Or(Right(t, align), Left(d, 4 - align)));
    h := Tail1(h, data[pack..]);
    h := Finish1(h);
  }

  // ---------- Reading chunks ----------

  /** Mixing in more bytes takes up where the earlier bytes left off. */
  lemma {:induction false} Append(v: Version, h: nat, s: seq<Byte>, d: seq<Byte>)
    ensures Blocks(v, h, s + d) == Blocks(v, Blocks(v, h, s), Rest(s) + d)
    ensures Rest(s + d) == Rest(Rest(s) + d)
    decreases |s|
  {
    if |s| >= 4 {
      assert (s + d)[4..] == s[4..] + d && Load(s + d) == Load(s);
      Append(v, Mix(v, h, Load(s)), s[4..], d);
    }
  }

  lemma TailByte(p: seq<Byte>, b: Byte)
    requires |p| <= 3
    ensures Or(Load(p), Up(b, |p|)) == Load(p + [b])
  {
    LoadShort(p);
    Join(Load(p), b, |p|);
  }

  /** The registers of the incremental hash. */
  datatype Registers = Registers(hash: nat, tail: nat, count: nat)

  /** A byte goes into the tail, which is mixed in when it is full. */
  function FeedByte(r: Registers, b: Byte): (r': Registers)
    requires r.count < 4
    ensures r'.count == if r.count == 3 then 0 else r.count + 1
  {
    var tail := Or(r.tail, Up(b, r.count));
    if r.count + 1 == 4 then Registers(Mix2(r.hash, tail), 0, 0) else Registers(r.hash, tail, r.count + 1)
  }

  /** The registers after some bytes, fed one at a time. */
  function After(seed: nat, seen: seq<Byte>): (r: Registers)
    ensures r.count < 4
  {
    if seen == [] then Registers(seed, 0, 0) else FeedByte(After(seed, seen[..|seen| - 1]), seen[|seen| - 1])
  }

  lemma {:induction false} AfterIsBlocks(seed: nat, seen: seq<Byte>)
    ensures After(seed, seen) == Registers(Blocks(V2, seed, seen), Load(Rest(seen)), |Rest(seen)|)
  {
    if seen != [] {
      var s, b := seen[..|seen| - 1], seen[|seen| - 1];
      assert seen == s + [b];
      AfterIsBlocks(seed, s);
      Append(V2, seed, s, [b]);
      TailByte(Rest(s), b);
    }
  }

  lemma AfterByte(seed: nat, seen: seq<Byte>, b: Byte)
    ensures After(seed, seen + [b]) == FeedByte(After(seed, seen), b)
  {
    assert (seen + [b])[..|seen|] == seen;
  }

  /** Four bytes at a word boundary are one mix. */
  lemma AfterWord(seed: nat, seen: seq<Byte>, word: seq<Byte>)
    requires |word| == 4
    ensures var r := After(seed, seen);
            r.count == 0 ==> After(seed, seen + word) == r.(hash := Mix2(r.hash, Load(word)))
  {
    AfterIsBlocks(seed, seen);
    AfterIsBlocks(seed, seen + word);
    Append(V2, seed, seen, word);
    if Rest(seen) == [] {
      assert Rest(seen) + word == word && word[4..] == [];
    }
  }

  lemma AddedUp(seen: seq<Byte>, chunk: seq<Byte>, i: nat, j: nat, k: nat)
    requires i <= j <= k <= |chunk|
    ensures seen + chunk[0..i] + chunk[i..j] + chunk[j..k] == seen + chunk[..k]
    ensures k == |chunk| ==> seen + chunk[..k] == seen + chunk
    ensures (|seen| % WRAP + |chunk|) % WRAP == |seen + chunk| % WRAP
  {
  }

  /** The incremental hash; `seed` and `seen` are what it was started with and fed so far. */
  class CMurmurHash2A {
    var r: Registers
    var size: nat
    ghost var seed: nat
    ghost var seen: seq<Byte>

    ghost predicate Valid()
      reads this
    {
      r == After(seed, seen) && size == |seen| % WRAP
    }

    /** Begin. */
    constructor (seed: nat)
      ensures Valid() && this.seed == seed && seen == []
    {
      r, size := Registers(seed, 0, 0), 0;
      this.seed, seen := seed, [];
    }

    method MixByte(b: Byte)
      requires r == After(seed, seen)
      modifies this
      ensures r == After(seed, seen) && size == old(size) && seed == old(seed) && seen == old(seen) + [b]
    {
      AfterByte(seed, seen, b);
      r := FeedByte(r, b);
      seen := seen + [b];
    }

    /** From byte i on, feeds single bytes while a word is incomplete or fewer than four bytes are left. */
    method MixTail(data: seq<Byte>, i: nat) returns (n: nat)
      requires r == After(seed, seen) && i <= |data|
      modifies this
      ensures r == After(seed, seen) && size == old(size) && seed == old(seed)
      ensures i <= n <= |data| && seen == old(seen) + data[i..n]
      ensures n == |data| || (n + 4 <= |data| && r.count == 0)
    {
      n := i;
      while n < |data| && (|data| - n < 4 || r.count != 0)
        invariant r == After(seed, seen) && size == old(size) && seed == old(seed)
        invariant i <= n <= |data| && seen == old(seen) + data[i..n]
      {
        MixByte(data[n]);
        assert data[i..n + 1] == data[i..n] + [data[n]];
        n := n + 1;
      }
    }

    method MixWord(word: seq<Byte>)
      requires r == After(seed, seen) && r.count == 0 && |word| == 4
      modifies this
      ensures r == After(seed, seen) && r.count == 0
      ensures size == old(size) && seed == old(seed) && seen == old(seen) + word
    {
      AfterWord(seed, seen, word);
      r := r.(hash := Mix2(r.hash, Load(word)));
      seen := seen + word;
    }

    /** From byte i on, mixes whole words. */
    method MixWords(data: seq<Byte>, i: nat) returns (n: nat)
      requires r == After(seed, seen) && i <= |data| && (i == |data| || r.count == 0)
      modifies this
      ensures r == After(seed, seen) && size == old(size) && seed == old(seed)
      ensures i <= n <= |data| < n + 4 && seen == old(seen) + data[i..n]
    {
      n := i;
      while |data| - n >= 4
        invariant r == After(seed, seen) && size == old(size) && seed == old(seed)
        invariant i <= n <= |data| && seen == old(seen) + data[i..n] && (n == |data| || r.count == 0)
      {
        MixWord(data[n..n + 4]);
        assert data[i..n + 4] == data[i..n] + data[n..n + 4];
        n := n + 4;
      }
    }

    method Add(chunk: seq<Byte>)
      requires Valid()
      modifies this
      ensures Valid() && seed == old(seed) && seen == old(seen) + chunk
    {
      size := (size + |chunk|) % WRAP;
      var i := MixTail(chunk, 0);
      var j := MixWords(chunk, i);
      var k := MixTail(chunk, j);
      AddedUp(old(seen), chunk, i, j, k);
    }

    method End() returns (h: nat)
      requires Valid()
      modifies this
      ensures h == Hash2A(old(seen), old(seed))
    {
      AfterIsBlocks(seed, seen);
      h := Mix2(r.hash, r.tail);
      h := Mix2(h, size);
      h := Finish2(h);
      r := r.(hash := h);
    }
  }

  function Concat(chunks: seq<seq<Byte>>): seq<Byte> {
    if chunks == [] then [] else Concat(chunks[..|chunks| - 1]) + chunks[|chunks| - 1]
  }

  /** Main result: however a key is cut into chunks, feeding them gives the hash of the whole key. */
  method HashChunks(chunks: seq<seq<Byte>>, seed: nat) returns (h: nat)
    ensures h == Hash2A(Concat(chunks), seed)
  {
    var hasher := new CMurmurHash2A(seed);
    for i := 0 to |chunks|
      invariant hasher.Valid() && hasher.seed == seed && hasher.seen == Concat(chunks[..i])
      invariant fresh(hasher)
    {
      assert chunks[..i + 1][..i] == chunks[..i];
      hasher.Add(chunks[i]);
    }
    assert chunks[..|chunks|] == chunks;
    h := hasher.End();
  }
}
