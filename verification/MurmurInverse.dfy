/**
  The Murmur hashes undone. Every step of a hash has an inverse, written here with the constants of
  the inverse, in the opposite order; so a hash and its key determine the seed, and keys of one
  length that differ in a single word never share a hash.
*/
module MurmurInverse {
  import opened Words
  import opened Murmur

  // ---------- Exclusive or and shifts ----------

  lemma {:induction false} XorSelf(x: nat)
    ensures Xor(x, x) == 0 && Xor(x, 0) == x
  {
    if x > 0 {
      XorSelf(x / 2);
      XorStep(x, x);
    }
  }

  /** What was put in with an exclusive or is taken out with another. */
  lemma XorCancels(x: nat, y: nat)
    ensures Xor(Xor(x, y), y) == x
  {
    XorAssociative(x, y, y);
    XorSelf(y);
    XorSelf(x);
  }

  lemma {:induction false} XorCommutes(x: nat, y: nat)
    ensures Xor(x, y) == Xor(y, x)
    decreases x + y
  {
    if x > 0 && y > 0 {
      XorCommutes(x / 2, y / 2);
      XorStep(x, y);
      XorStep(y, x);
    }
  }

  /** Exclusive or stays within the digits of its operands. */
  lemma {:induction false} XorBound(x: nat, y: nat, n: nat)
    requires x < Pow2(n) && y < Pow2(n)
    ensures Xor(x, y) < Pow2(n)
  {
    if n > 0 {
      XorBound(x / 2, y / 2, n - 1);
      XorStep(x, y);
    }
  }

  lemma WordIsPow()
    ensures Pow2(32) == WRAP
  {
    assert Pow2(8) == 0x100;
    PowSum(8, 8);
    PowSum(16, 16);
  }

  lemma {:induction false} PowSum(m: nat, n: nat)
    ensures Pow2(m + n) == Pow2(m) * Pow2(n)
  {
    if m > 0 {
      PowSum(m - 1, n);
    }
  }

  lemma XorWord(x: nat, y: nat)
    requires x < WRAP && y < WRAP
    ensures Xor(x, y) < WRAP
  {
    WordIsPow();
    XorBound(x, y, 32);
  }

  /** A right shift, one digit at a time. */
  function Shr(x: nat, n: nat): (r: nat)
    ensures r <= x
  {
    if n == 0 then x else Shr(x / 2, n - 1)
  }

  lemma {:induction false} ShrXor(x: nat, y: nat, n: nat)
    ensures Shr(Xor(x, y), n) == Xor(Shr(x, n), Shr(y, n))
  {
    if n > 0 {
      XorStep(x, y);
      ShrXor(x / 2, y / 2, n - 1);
    }
  }

  lemma {:induction false} ShrTwice(x: nat, m: nat, n: nat)
    ensures Shr(Shr(x, m), n) == Shr(x, m + n)
  {
    if m > 0 {
      ShrTwice(x / 2, m - 1, n);
    }
  }

  lemma {:induction false} ShrAll(x: nat, n: nat)
    requires x < Pow2(n)
    ensures Shr(x, n) == 0
  {
    if n > 0 {
      ShrAll(x / 2, n - 1);
    }
  }

  /** Nothing is left of a word shifted by its width or more. */
  lemma ShrWord(x: nat, m: nat, n: nat)
    requires x < WRAP && m + n >= 32
    ensures Shr(Shr(x, m), n) == 0
  {
    WordIsPow();
    ShrTwice(x, m, n);
    ShrTwice(x, 32, m + n - 32);
    ShrAll(x, 32);
  }

  lemma ShrFew(x: nat)
    ensures Shr(x, 1) == x / 2 && Shr(x, 2) == x / 4 && Shr(x, 3) == x / 8 && Shr(x, 4) == x / 16
  {
    assert Shr(x, 2) == Shr(x / 2, 1) && Shr(x, 3) == Shr(x / 2, 2) && Shr(x, 4) == Shr(x / 2, 3);
    assert Shr(x / 2, 3) == Shr(x / 4, 2) == Shr(x / 8, 1);
  }

  lemma Shr5(x: nat)
    ensures Shr(x, 5) == x / 0x20
  {
    ShrTwice(x, 4, 1);
    ShrFew(x);
    ShrFew(x / 0x10);
  }

  lemma Shr10(x: nat)
    ensures Shr(x, 10) == x / 0x400
  {
    ShrTwice(x, 5, 5);
    Shr5(x);
    Shr5(x / 0x20);
  }

  lemma Shr13(x: nat)
    ensures Shr(x, 13) == x / 0x2000
  {
    ShrTwice(x, 10, 3);
    Shr10(x);
    ShrFew(x / 0x400);
  }

  lemma Shr15(x: nat)
    ensures Shr(x, 15) == x / 0x8000
  {
    ShrTwice(x, 10, 5);
    Shr10(x);
    Shr5(x / 0x400);
  }

  lemma Shr16(x: nat)
    ensures Shr(x, 16) == x / 0x10000
  {
    ShrTwice(x, 15, 1);
    Shr15(x);
    ShrFew(x / 0x8000);
  }

  lemma Shr17(x: nat)
    ensures Shr(x, 17) == x / 0x20000
  {
    ShrTwice(x, 15, 2);
    Shr15(x);
    ShrFew(x / 0x8000);
  }

  lemma Shr20(x: nat)
    ensures Shr(x, 20) == x / 0x100000
  {
    ShrTwice(x, 10, 10);
    Shr10(x);
    Shr10(x / 0x400);
  }

  lemma Shr24(x: nat)
    ensures Shr(x, 24) == x / 0x1000000
  {
    ShrTwice(x, 20, 4);
    Shr20(x);
    ShrFew(x / 0x100000);
  }

  lemma Shr26(x: nat)
    ensures Shr(x, 26) == x / 0x4000000
  {
    ShrTwice(x, 16, 10);
    Shr16(x);
    Shr10(x / 0x10000);
  }

  lemma Shr30(x: nat)
    ensures Shr(x, 30) == x / 0x40000000
  {
    ShrTwice(x, 20, 10);
    Shr20(x);
    Shr10(x / 0x100000);
  }

  // ---------- Undoing x ^= x >> n ----------

  function Fold(x: nat, n: nat): nat { Xor(x, Shr(x, n)) }

  lemma FoldWord(x: nat, n: nat)
    requires x < WRAP
    ensures Fold(x, n) < WRAP
  {
    XorWord(x, Shr(x, n));
  }

  lemma FoldShr(x: nat, m: nat, n: nat)
    ensures Shr(Fold(x, m), n) == Xor(Shr(x, n), Shr(x, m + n))
  {
    ShrXor(x, Shr(x, m), n);
    ShrTwice(x, m, n);
  }

  /** Folding twice is folding once, twice as far. */
  lemma FoldTwice(x: nat, n: nat)
    ensures Fold(Fold(x, n), n) == Fold(x, n + n)
  {
    var s, t := Shr(x, n), Shr(x, n + n);
    FoldShr(x, n, n);
    XorAssociative(Xor(x, s), s, t);
    XorCancels(x, s);
  }

  lemma FoldsCommute(x: nat, m: nat, n: nat)
    ensures Fold(Fold(x, m), n) == Fold(Fold(x, n), m)
  {
    var s, t, u := Shr(x, m), Shr(x, n), Shr(x, m + n);
    FoldShr(x, m, n);
    FoldShr(x, n, m);
    XorAssociative(x, s, Xor(t, u));
    XorAssociative(s, t, u);
    XorCommutes(s, t);
    XorAssociative(t, s, u);
    XorAssociative(x, t, Xor(s, u));
  }

  /** Half the width or more: folding again undoes it. */
  lemma FarFold(x: nat, n: nat)
    requires x < WRAP && 16 <= n
    ensures Fold(Fold(x, n), n) == x
  {
    FoldTwice(x, n);
    ShrWord(x, n, n);
    ShrTwice(x, n, n);
    XorSelf(x);
  }

  /** A quarter of the width or more: folding again, and once more twice as far, undoes it, in either order. */
  lemma NearFold(x: nat, n: nat)
    requires x < WRAP && 8 <= n
    ensures Fold(Fold(Fold(x, n), n), n + n) == x && Fold(Fold(Fold(x, n), n + n), n) == x
  {
    FoldTwice(x, n);
    FarFold(x, n + n);
    FoldsCommute(Fold(x, n), n, n + n);
  }

  // ---------- Undoing multiplications ----------

  const INVERSE1 := 0xd819_8e9b
  const INVERSE2 := 0xe59b_19bd

  lemma Remainder(x: nat, z: nat, n: int)
    requires x < WRAP && z == x + WRAP * n
    ensures z % WRAP == x
  {
  }

  /** Multiplying by a and then by b is the identity when the product of a and b is one more than k words. */
  lemma MulUndone(x: nat, a: nat, b: nat, k: nat)
    requires x < WRAP && a * b == 1 + WRAP * k
    ensures Mul(Mul(x, a), b) == x
  {
    var q, r := x * a / WRAP, Mul(x, a);
    assert x * a == WRAP * q + r;
    assert r * b == x * a * b - WRAP * q * b;
    assert x * a * b == x * (a * b) == x + WRAP * (x * k);
    assert WRAP * q * b == WRAP * (q * b);
    Remainder(x, r * b, x * k - q * b);
  }

  lemma MulInverse1(x: nat)
    requires x < WRAP
    ensures Mul(Mul(x, M1), INVERSE1) == x && Mul(Mul(x, INVERSE1), M1) == x
  {
    MulUndone(x, M1, INVERSE1, 0xa7aec220);
    MulUndone(x, INVERSE1, M1, 0xa7aec220);
  }

  lemma MulInverse2(x: nat)
    requires x < WRAP
    ensures Mul(Mul(x, M2), INVERSE2) == x && Mul(Mul(x, INVERSE2), M2) == x
  {
    MulUndone(x, M2, INVERSE2, 0x525a6746);
    MulUndone(x, INVERSE2, M2, 0x525a6746);
  }

  // ---------- Undoing the steps of MurmurHash2 ----------

  /** The word whose mixing takes h to g. */
  function Unmix2(h: nat, g: nat): nat {
    var y := Mul(Xor(g, Mul(h, M2)), INVERSE2);
    Mul(Xor(y, y / 0x100_0000), INVERSE2)
  }

  function Unfinish2(g: nat): nat {
    var x := Xor(g, g / 0x8000);
    var y := Mul(Xor(x, x / 0x4000_0000), INVERSE2);
    var z := Xor(y, y / 0x2000);
    Xor(z, z / 0x400_0000)
  }

  /** Main result: the word mixed in is recovered from the hashes before and after it, and any hash can be reached. */
  lemma Mix2Undone(h: nat, k: nat, g: nat)
    requires k < WRAP && g < WRAP
    ensures Unmix2(h, Mix2(h, k)) == k && Mix2(h, Unmix2(h, g)) == g
  {
    var x := Mul(k, M2);
    var y := Mul(Fold(x, 24), M2);
    Shr24(x);
    Shr24(Fold(x, 24));
    XorCommutes(Mul(h, M2), y);
    XorCancels(y, Mul(h, M2));
    FoldWord(x, 24);
    MulInverse2(Fold(x, 24));
    FarFold(x, 24);
    MulInverse2(k);
    Mix2Reaches(h, g);
  }

  lemma Mix2Reaches(h: nat, g: nat)
    requires g < WRAP
    ensures Mix2(h, Unmix2(h, g)) == g
  {
    var d := Xor(g, Mul(h, M2));
    var y := Mul(d, INVERSE2);
    XorWord(g, Mul(h, M2));
    Shr24(y);
    Shr24(Fold(y, 24));
    FoldWord(y, 24);
    MulInverse2(Fold(y, 24));
    FarFold(y, 24);
    MulInverse2(d);
    XorCommutes(Mul(h, M2), d);
    XorCancels(g, Mul(h, M2));
  }

  lemma Finish2Undone(h: nat)
    requires h < WRAP
    ensures Unfinish2(Finish2(h)) == h && Finish2(h) < WRAP
  {
    var x := Mul(Fold(h, 13), M2);
    Shr13(h);
    Shr15(x);
    Shr15(Fold(x, 15));
    Shr30(Fold(Fold(x, 15), 15));
    NearFold(x, 15);
    FoldWord(h, 13);
    MulInverse2(Fold(h, 13));
    Shr13(Fold(h, 13));
    Shr26(Fold(Fold(h, 13), 13));
    NearFold(h, 13);
    FoldWord(x, 15);
  }

  lemma Finish2Reaches(g: nat)
    requires g < WRAP
    ensures Finish2(Unfinish2(g)) == g && Unfinish2(g) < WRAP
  {
    var x := Fold(g, 15);
    var w := Fold(x, 30);
    var y := Mul(w, INVERSE2);
    var z := Fold(y, 13);
    Shr15(g);
    Shr30(x);
    Shr13(y);
    Shr26(z);
    FoldWord(g, 15);
    FoldWord(x, 30);
    FoldWord(y, 13);
    FoldWord(z, 26);
    Shr13(Fold(z, 26));
    FoldsCommute(z, 26, 13);
    NearFold(y, 13);
    MulInverse2(w);
    Shr15(w);
    FoldsCommute(x, 30, 15);
    NearFold(g, 15);
  }

  /** The hash from which mixing k leads to g. */
  function Unmixed2(g: nat, k: nat): nat {
    Mul(Xor(g, Mix2(0, k)), INVERSE2)
  }

  lemma Mix2FromZero(h: nat, k: nat)
    ensures Mix2(h, k) == Xor(Mul(h, M2), Mix2(0, k)) && Mix2(0, k) < WRAP
  {
  }

  lemma Unmixed2Of(h: nat, k: nat, g: nat)
    requires h < WRAP && g < WRAP
    ensures Unmixed2(Mix2(h, k), k) == h && Mix2(h, k) < WRAP
    ensures Mix2(Unmixed2(g, k), k) == g && Unmixed2(g, k) < WRAP
  {
    Mix2FromZero(h, k);
    XorCancels(Mul(h, M2), Mix2(0, k));
    MulInverse2(h);
    XorWord(Mul(h, M2), Mix2(0, k));
    XorWord(g, Mix2(0, k));
    MulInverse2(Xor(g, Mix2(0, k)));
    XorCancels(g, Mix2(0, k));
    Mix2FromZero(Unmixed2(g, k), k);
  }

  // ---------- Undoing the steps of MurmurHash1 ----------

  /** The sum of a hash and the word mixed into it that leads to g. */
  function Unsum1(g: nat): nat {
    Mul(Xor(g, g / 0x1_0000), INVERSE1)
  }

  /** One operand of a wrapped sum, from the sum and the other. */
  function Minus(sum: nat, k: nat): nat {
    (sum + WRAP - k % WRAP) % WRAP
  }

  /** A wrapped sum is the sum, or one word less. */
  lemma AddCases(h: nat, k: nat, r: nat)
    requires h < WRAP && r == k % WRAP
    ensures Add(h, k) == if h + r < WRAP then h + r else h + r - WRAP
  {
    var q := k / WRAP;
    assert k == WRAP * q + r;
    if h + r < WRAP {
      Remainder(h + r, h + k, q);
    } else {
      Remainder(h + r - WRAP, h + k, q + 1);
    }
  }

  lemma MinusCases(sum: nat, k: nat, r: nat)
    requires sum < WRAP && r == k % WRAP
    ensures Minus(sum, k) == if r <= sum then sum - r else sum + WRAP - r
  {
    if r <= sum {
      Remainder(sum - r, sum + WRAP - r, 1);
    } else {
      Remainder(sum + WRAP - r, sum + WRAP - r, 0);
    }
  }

  lemma AddMinus(h: nat, k: nat, sum: nat)
    requires h < WRAP && sum < WRAP
    ensures Minus(Add(h, k), k) == h && Add(Minus(sum, k), k) == sum && Add(h, k) == Add(k, h)
  {
    var r := k % WRAP;
    AddCases(h, k, r);
    MinusCases(Add(h, k), k, r);
    MinusCases(sum, k, r);
    AddCases(Minus(sum, k), k, r);
  }

  lemma Mix1Undone(h: nat, k: nat, g: nat)
    requires g < WRAP
    ensures Unsum1(Mix1(h, k)) == Add(h, k) && Mix1(h, k) < WRAP
    ensures Add(h, k) == Unsum1(g) ==> Mix1(h, k) == g
  {
    var x := Mul(Add(h, k), M1);
    Shr16(x);
    Shr16(Fold(x, 16));
    FarFold(x, 16);
    FoldWord(x, 16);
    MulInverse1(Add(h, k));
    Shr16(g);
    FoldWord(g, 16);
    MulInverse1(Fold(g, 16));
    Shr16(Fold(g, 16));
    FarFold(g, 16);
  }

  function Unfinish1(g: nat): nat {
    var y := Mul(Xor(g, g / 0x2_0000), INVERSE1);
    var z := Xor(y, y / 0x400);
    Mul(Xor(z, z / 0x10_0000), INVERSE1)
  }

  lemma Finish1Undone(h: nat)
    requires h < WRAP
    ensures Unfinish1(Finish1(h)) == h && Finish1(h) < WRAP
  {
    var x := Mul(h, M1);
    var y := Mul(Fold(x, 10), M1);
    Shr10(x);
    Shr17(y);
    Shr17(Fold(y, 17));
    FarFold(y, 17);
    FoldWord(y, 17);
    FoldWord(x, 10);
    MulInverse1(Fold(x, 10));
    Shr10(Fold(x, 10));
    Shr20(Fold(Fold(x, 10), 10));
    NearFold(x, 10);
    MulInverse1(h);
  }

  lemma Finish1Reaches(g: nat)
    requires g < WRAP
    ensures Finish1(Unfinish1(g)) == g && Unfinish1(g) < WRAP
  {
    var w := Fold(g, 17);
    var y := Mul(w, INVERSE1);
    var z := Fold(y, 10);
    Shr17(g);
    Shr10(y);
    Shr20(z);
    FoldWord(g, 17);
    FoldWord(y, 10);
    FoldWord(z, 20);
    MulInverse1(Fold(z, 20));
    Shr10(Fold(z, 20));
    FoldsCommute(z, 20, 10);
    NearFold(y, 10);
    MulInverse1(w);
    Shr17(w);
    FarFold(g, 17);
  }

  // ---------- Undoing the whole words of a key ----------

  function Unmixed(v: Version, g: nat, k: nat): nat {
    if v.V1? then Minus(Unsum1(g), k) else Unmixed2(g, k)
  }

  lemma UnmixedOf(v: Version, h: nat, k: nat, g: nat)
    requires h < WRAP && g < WRAP
    ensures Unmixed(v, Mix(v, h, k), k) == h && Mix(v, h, k) < WRAP
    ensures Mix(v, Unmixed(v, g, k), k) == g && Unmixed(v, g, k) < WRAP
  {
    if v.V1? {
      Mix1Undone(h, k, g);
      AddMinus(h, k, Unsum1(g));
      Mix1Undone(Minus(Unsum1(g), k), k, g);
    } else {
      Unmixed2Of(h, k, g);
    }
  }

  /** The hash before the whole words of s, from the one after them: the last word is undone first. */
  function Unblocks(v: Version, g: nat, s: seq<Byte>): nat
    decreases |s|
  {
    if |s| < 4 then g else Unmixed(v, Unblocks(v, g, s[4..]), Load(s))
  }

  lemma {:induction false} BlocksUndone(v: Version, h: nat, s: seq<Byte>)
    requires h < WRAP
    ensures Unblocks(v, Blocks(v, h, s), s) == h && Blocks(v, h, s) < WRAP
    decreases |s|
  {
    if |s| >= 4 {
      UnmixedOf(v, h, Load(s), 0);
      BlocksUndone(v, Mix(v, h, Load(s)), s[4..]);
    }
  }

  lemma {:induction false} BlocksReach(v: Version, g: nat, s: seq<Byte>)
    requires g < WRAP
    ensures Blocks(v, Unblocks(v, g, s), s) == g && Unblocks(v, g, s) < WRAP
    decreases |s|
  {
    if |s| >= 4 {
      BlocksReach(v, g, s[4..]);
      UnmixedOf(v, 0, Load(s), Unblocks(v, g, s[4..]));
    }
  }

  // ---------- The seed of a hash ----------

  /** The seed with which the key has hash g, for each of the three hashes. */
  function SeedOf1(g: nat, key: seq<Byte>): nat {
    var h := Unfinish1(g);
    var b := if Rest(key) == [] then h else Minus(Unsum1(h), Load(Rest(key)));
    Xor(Unblocks(V1, b, key), Mul(|key|, M1))
  }

  function SeedOf2(g: nat, key: seq<Byte>): nat {
    var h := Unfinish2(g);
    var b := if Rest(key) == [] then h else Xor(Mul(h, INVERSE2), Load(Rest(key)));
    Xor(Unblocks(V2, b, key), |key| % WRAP)
  }

  function SeedOf2A(g: nat, key: seq<Byte>): nat {
    var h := Unmixed2(Unfinish2(g), |key| % WRAP);
    Unblocks(V2, Unmixed2(h, Load(Rest(key))), key)
  }

  lemma Tail2Undone(h: nat, t: nat, g: nat)
    requires h < WRAP && t < WRAP && g < WRAP
    ensures Mul(Xor(h, t), M2) < WRAP && Xor(Mul(Mul(Xor(h, t), M2), INVERSE2), t) == h
    ensures Xor(Mul(g, INVERSE2), t) < WRAP && Mul(Xor(Xor(Mul(g, INVERSE2), t), t), M2) == g
  {
    XorWord(h, t);
    MulInverse2(Xor(h, t));
    XorCancels(h, t);
    XorCancels(Mul(g, INVERSE2), t);
    MulInverse2(g);
    XorWord(Mul(g, INVERSE2), t);
  }

  /** Main result: MurmurHash2 maps the seeds of a key one to one onto the hashes; SeedOf2 is the inverse. */
  lemma Hash2Undone(key: seq<Byte>, seed: nat, g: nat)
    requires seed < WRAP && g < WRAP
    ensures SeedOf2(Hash2(key, seed), key) == seed && Hash2(key, SeedOf2(g, key)) == g
  {
    Hash2ToSeed(key, seed);
    Hash2Reaches(key, g);
  }

  lemma Hash2ToSeed(key: seq<Byte>, seed: nat)
    requires seed < WRAP
    ensures SeedOf2(Hash2(key, seed), key) == seed
  {
    var n, t := |key| % WRAP, Load(Rest(key));
    XorWord(seed, n);
    var h := Blocks(V2, Xor(seed, n), key);
    BlocksUndone(V2, Xor(seed, n), key);
    Tail2Undone(h, t, 0);
    Finish2Undone(if Rest(key) == [] then h else Mul(Xor(h, t), M2));
    XorCancels(seed, n);
  }

  lemma Hash2Reaches(key: seq<Byte>, g: nat)
    requires g < WRAP
    ensures Hash2(key, SeedOf2(g, key)) == g
  {
    var n, t, h := |key| % WRAP, Load(Rest(key)), Unfinish2(g);
    Finish2Reaches(g);
    Tail2Undone(0, t, h);
    var b := if Rest(key) == [] then h else Xor(Mul(h, INVERSE2), t);
    BlocksReach(V2, b, key);
    XorCancels(Unblocks(V2, b, key), n);
  }

  /** Main result: the same for MurmurHash2A. */
  lemma Hash2AUndone(key: seq<Byte>, seed: nat, g: nat)
    requires seed < WRAP && g < WRAP
    ensures SeedOf2A(Hash2A(key, seed), key) == seed && Hash2A(key, SeedOf2A(g, key)) == g
  {
    Hash2AToSeed(key, seed);
    Hash2AReaches(key, g);
  }

  lemma Hash2AToSeed(key: seq<Byte>, seed: nat)
    requires seed < WRAP
    ensures SeedOf2A(Hash2A(key, seed), key) == seed
  {
    var n, t, h := |key| % WRAP, Load(Rest(key)), Blocks(V2, seed, key);
    BlocksUndone(V2, seed, key);
    Unmixed2Of(h, t, 0);
    Unmixed2Of(Mix2(h, t), n, 0);
    Finish2Undone(Mix2(Mix2(h, t), n));
  }

  lemma Hash2AReaches(key: seq<Byte>, g: nat)
    requires g < WRAP
    ensures Hash2A(key, SeedOf2A(g, key)) == g
  {
    var n, t := |key| % WRAP, Load(Rest(key));
    Finish2Reaches(g);
    Unmixed2Of(0, n, Unfinish2(g));
    Unmixed2Of(0, t, Unmixed2(Unfinish2(g), n));
    BlocksReach(V2, Unmixed2(Unmixed2(Unfinish2(g), n), t), key);
  }

  /** Main result: the same for MurmurHash1. */
  lemma Hash1Undone(key: seq<Byte>, seed: nat, g: nat)
    requires seed < WRAP && g < WRAP
    ensures SeedOf1(Hash1(key, seed), key) == seed && Hash1(key, SeedOf1(g, key)) == g
  {
    Hash1ToSeed(key, seed);
    Hash1Reaches(key, g);
  }

  lemma Hash1ToSeed(key: seq<Byte>, seed: nat)
    requires seed < WRAP
    ensures SeedOf1(Hash1(key, seed), key) == seed
  {
    var n, t := Mul(|key|, M1), Load(Rest(key));
    XorWord(seed, n);
    var h := Blocks(V1, Xor(seed, n), key);
    BlocksUndone(V1, Xor(seed, n), key);
    Mix1Undone(h, t, 0);
    AddMinus(h, t, 0);
    Finish1Undone(if Rest(key) == [] then h else Mix1(h, t));
    XorCancels(seed, n);
  }

  lemma Hash1Reaches(key: seq<Byte>, g: nat)
    requires g < WRAP
    ensures Hash1(key, SeedOf1(g, key)) == g
  {
    var n, t, h := Mul(|key|, M1), Load(Rest(key)), Unfinish1(g);
    Finish1Reaches(g);
    AddMinus(0, t, Unsum1(h));
    Mix1Undone(Minus(Unsum1(h), t), t, h);
    var b := if Rest(key) == [] then h else Minus(Unsum1(h), t);
    BlocksReach(V1, b, key);
    XorCancels(Unblocks(V1, b, key), n);
  }

  // ---------- One word decides ----------

  lemma {:induction false} RestWhole(p: seq<Byte>)
    requires |p| % 4 == 0
    ensures Rest(p) == []
    decreases |p|
  {
    if |p| >= 4 {
      RestWhole(p[4..]);
    }
  }

  lemma DigitApart(a: nat, x: nat, a': nat, x': nat)
    requires a < 256 && a' < 256 && a + 0x100 * x == a' + 0x100 * x'
    ensures a == a' && x == x'
  {
  }

  lemma FourApart(a: nat, b: nat, c: nat, d: nat, a': nat, b': nat, c': nat, d': nat)
    requires a < 256 && b < 256 && c < 256 && a' < 256 && b' < 256 && c' < 256
    requires Four(a, b, c, d) == Four(a', b', c', d')
    ensures a == a' && b == b' && c == c' && d == d'
  {
    DigitApart(a, b + 0x100 * (c + 0x100 * d), a', b' + 0x100 * (c' + 0x100 * d'));
    DigitApart(b, c + 0x100 * d, b', c' + 0x100 * d');
    DigitApart(c, d, c', d');
  }

  lemma LoadApart(w: seq<Byte>, w': seq<Byte>)
    requires |w| == |w'| <= 4 && w != w'
    ensures Load(w) != Load(w')
  {
    if Load(w) == Load(w') {
      FourApart(At(w, 0), At(w, 1), At(w, 2), At(w, 3), At(w', 0), At(w', 1), At(w', 2), At(w', 3));
      SameBytes(w, w');
    }
  }

  lemma SameBytes(w: seq<Byte>, w': seq<Byte>)
    requires |w| == |w'| <= 4 && At(w, 0) == At(w', 0) && At(w, 1) == At(w', 1)
    requires At(w, 2) == At(w', 2) && At(w, 3) == At(w', 3)
    ensures w == w'
  {
    forall i | 0 <= i < |w|
      ensures w[i] == w'[i]
    {
      assert w[i] == At(w, i) && w'[i] == At(w', i);
    }
  }

  lemma MixApart(v: Version, h: nat, k: nat, k': nat)
    requires h < WRAP && k < WRAP && k' < WRAP && k != k'
    ensures Mix(v, h, k) != Mix(v, h, k')
  {
    if v.V1? {
      Mix1Undone(h, k, 0);
      Mix1Undone(h, k', 0);
      AddMinus(k, h, 0);
      AddMinus(k', h, 0);
    } else {
      Mix2Undone(h, k, 0);
      Mix2Undone(h, k', 0);
    }
  }

  /** Two keys of one length that differ in one word, which may be the last and short. */
  predicate OneWordApart(p: seq<Byte>, w: seq<Byte>, w': seq<Byte>, s: seq<Byte>) {
    |p| % 4 == 0 && |w| == |w'| <= 4 && w != w' && (|w| < 4 ==> s == [])
  }

  lemma AfterPrefix(v: Version, h: nat, p: seq<Byte>, x: seq<Byte>)
    requires |p| % 4 == 0
    ensures Blocks(v, h, p + x) == Blocks(v, Blocks(v, h, p), x) && Rest(p + x) == Rest(x)
  {
    RestWhole(p);
    Append(v, h, p, x);
    assert [] + x == x;
  }

  lemma AfterWord(v: Version, g: nat, w: seq<Byte>, s: seq<Byte>)
    requires |w| == 4
    ensures Blocks(v, g, w + s) == Blocks(v, Mix(v, g, Load(w)), s) && Rest(w + s) == Rest(s)
  {
    assert (w + s)[4..] == s && Load(w + s) == Load(w);
  }

  lemma BlocksApart(v: Version, g: nat, g': nat, s: seq<Byte>)
    requires g < WRAP && g' < WRAP && g != g'
    ensures Blocks(v, g, s) != Blocks(v, g', s)
  {
    BlocksUndone(v, g, s);
    BlocksUndone(v, g', s);
  }

  /** The hashes of two keys before their last bytes: parted, or about to meet different last bytes. */
  ghost predicate Parting(h: nat, h': nat, t: nat, t': nat) {
    h < WRAP && h' < WRAP && t < WRAP && t' < WRAP && if h == h' then t != t' else t == t'
  }

  /** Before the last bytes the hashes have parted, or the last bytes differ. */
  lemma BlocksPart(v: Version, h: nat, p: seq<Byte>, w: seq<Byte>, w': seq<Byte>, s: seq<Byte>,
                   a: seq<Byte>, b: seq<Byte>)
    requires h < WRAP && OneWordApart(p, w, w', s) && a == p + (w + s) && b == p + (w' + s)
    ensures Parting(Blocks(v, h, a), Blocks(v, h, b), Load(Rest(a)), Load(Rest(b)))
    ensures Rest(a) == [] <==> Rest(b) == []
  {
    var g := Blocks(v, h, p);
    BlocksUndone(v, h, p);
    BlocksUndone(v, h, a);
    BlocksUndone(v, h, b);
    AfterPrefix(v, h, p, w + s);
    AfterPrefix(v, h, p, w' + s);
    LoadApart(w, w');
    if |w| == 4 {
      AfterWord(v, g, w, s);
      AfterWord(v, g, w', s);
      MixApart(v, g, Load(w), Load(w'));
      UnmixedOf(v, g, Load(w), 0);
      UnmixedOf(v, g, Load(w'), 0);
      BlocksApart(v, Mix(v, g, Load(w)), Mix(v, g, Load(w')), s);
    } else {
      assert w + s == w && w' + s == w';
    }
  }

  lemma XorApart(h: nat, h': nat, t: nat, t': nat)
    requires Parting(h, h', t, t')
    ensures Xor(h, t) != Xor(h', t')
  {
    XorCancels(h, t);
    XorCancels(h', t');
    XorCommutes(h, t);
    XorCommutes(h', t');
    XorCancels(t, h);
    XorCancels(t', h');
  }

  lemma MulApart2(x: nat, x': nat)
    requires x < WRAP && x' < WRAP && x != x'
    ensures Mul(x, M2) != Mul(x', M2)
  {
    MulInverse2(x);
    MulInverse2(x');
  }

  lemma MixParts(v: Version, h: nat, h': nat, t: nat, t': nat)
    requires Parting(h, h', t, t')
    ensures Mix(v, h, t) != Mix(v, h', t') && Mix(v, h, t) < WRAP && Mix(v, h', t') < WRAP
  {
    UnmixedOf(v, h, t, 0);
    UnmixedOf(v, h', t', 0);
    if h == h' {
      MixApart(v, h, t, t');
    }
  }

  lemma FinishApart2(h: nat, h': nat)
    requires h < WRAP && h' < WRAP && h != h'
    ensures Finish2(h) != Finish2(h')
  {
    Finish2Undone(h);
    Finish2Undone(h');
  }

  lemma TailApart2(h: nat, h': nat, t: nat, t': nat)
    requires Parting(h, h', t, t')
    ensures Mul(Xor(h, t), M2) != Mul(Xor(h', t'), M2)
    ensures Mul(Xor(h, t), M2) < WRAP && Mul(Xor(h', t'), M2) < WRAP
  {
    XorApart(h, h', t, t');
    XorWord(h, t);
    XorWord(h', t');
    MulApart2(Xor(h, t), Xor(h', t'));
  }

  /** Main result: changing one word of a key, whole or last, always changes its MurmurHash2. */
  lemma OneWordDecides2(
    p: seq<Byte>, w: seq<Byte>, w': seq<Byte>, s: seq<Byte>, a: seq<Byte>, b: seq<Byte>, seed: nat)
    requires seed < WRAP && OneWordApart(p, w, w', s) && a == p + (w + s) && b == p + (w' + s)
    ensures Hash2(a, seed) != Hash2(b, seed)
  {
    var n := Xor(seed, |a| % WRAP);
    XorWord(seed, |a| % WRAP);
    BlocksPart(V2, n, p, w, w', s, a, b);
    var h, h', t, t' := Blocks(V2, n, a), Blocks(V2, n, b), Load(Rest(a)), Load(Rest(b));
    if Rest(a) == [] {
      FinishApart2(h, h');
    } else {
      TailApart2(h, h', t, t');
      FinishApart2(Mul(Xor(h, t), M2), Mul(Xor(h', t'), M2));
    }
  }

  /** Main result: the same for MurmurHash2A. */
  lemma OneWordDecides2A(
    p: seq<Byte>, w: seq<Byte>, w': seq<Byte>, s: seq<Byte>, a: seq<Byte>, b: seq<Byte>, seed: nat)
    requires seed < WRAP && OneWordApart(p, w, w', s) && a == p + (w + s) && b == p + (w' + s)
    ensures Hash2A(a, seed) != Hash2A(b, seed)
  {
    BlocksPart(V2, seed, p, w, w', s, a, b);
    var n, h, h', t, t' := |a| % WRAP, Blocks(V2, seed, a), Blocks(V2, seed, b), Load(Rest(a)), Load(Rest(b));
    MixParts(V2, h, h', t, t');
    MixParts(V2, Mix2(h, t), Mix2(h', t'), n, n);
    FinishApart2(Mix2(Mix2(h, t), n), Mix2(Mix2(h', t'), n));
  }

  lemma FinishApart1(h: nat, h': nat)
    requires h < WRAP && h' < WRAP && h != h'
    ensures Finish1(h) != Finish1(h')
  {
    Finish1Undone(h);
    Finish1Undone(h');
  }

  /** Main result: the same for MurmurHash1. */
  lemma OneWordDecides1(
    p: seq<Byte>, w: seq<Byte>, w': seq<Byte>, s: seq<Byte>, a: seq<Byte>, b: seq<Byte>, seed: nat)
    requires seed < WRAP && OneWordApart(p, w, w', s) && a == p + (w + s) && b == p + (w' + s)
    ensures Hash1(a, seed) != Hash1(b, seed)
  {
    var n := Xor(seed, Mul(|a|, M1));
    XorWord(seed, Mul(|a|, M1));
    BlocksPart(V1, n, p, w, w', s, a, b);
    var h, h', t, t' := Blocks(V1, n, a), Blocks(V1, n, b), Load(Rest(a)), Load(Rest(b));
    if Rest(a) == [] {
      FinishApart1(h, h');
    } else {
      MixParts(V1, h, h', t, t');
      FinishApart1(Mix1(h, t), Mix1(h', t'));
    }
  }

  // ---------- Hashes of some keys ----------

  /** A number whose low n bytes are zero, and one below n bytes. */
  lemma XorHighLow(h: nat, c: nat, a: nat, n: nat)
    requires n <= 3 && h == Up(c, n) && a < Scale(n)
    ensures Xor(h, a) == h + a
  {
    Join(a, c, n);
  }

  lemma FinishSteps(h: nat, a: nat, x: nat, v: nat)
    requires a == h / 0x2000 && Xor(h, a) == h + a && x == Mul(h + a, M2) && v == x / 0x8000 && Xor(x, v) == x + v
    ensures Finish2(h) == x + v
  {
  }

  lemma FinishAt(h: nat, x: nat)
    requires h == 0x40 * 0x100_0000 && x == 0x132a * 0x1_0000
    ensures Finish2(h) == 0x132a_2654
  {
    FinishNumbers(h, x);
    XorHighLow(h, 0x40, h / 0x2000, 3);
    XorHighLow(x, 0x132a, x / 0x8000, 2);
    FinishSteps(h, h / 0x2000, x, x / 0x8000);
  }

  lemma FinishNumbers(h: nat, x: nat)
    requires h == 0x40 * 0x100_0000 && x == 0x132a * 0x1_0000
    ensures h / 0x2000 < 0x100_0000 && x == Mul(h + h / 0x2000, M2) && x / 0x8000 < 0x1_0000
    ensures x + x / 0x8000 == 0x132a_2654
  {
    assert h / 0x2000 == 2 * 0x1_0000;
    Remainder(x, (h + h / 0x2000) * M2, 0x16f53209);
  }

  /** A small number that is put in and taken out again. */
  lemma XorOver(h: nat, t: nat)
    requires t < 0x100_0000 && h == 0x4000_0000
    ensures Xor(h + t, t) == h && Xor(h, t) == h + t
  {
    var c := h / 0x100_0000;
    Join(t, c, 3);
    XorCancels(h, t);
  }

  lemma XorLength(x: nat, n: nat)
    requires n < 4 && x % 4 == 0
    ensures Xor(x + n, n) == x
  {
    TwoZeros(x);
    XorDisjoint(n, x, 2);
    XorCancels(x, n);
  }

  lemma TwoZeros(x: nat)
    requires x % 4 == 0
    ensures Pow2(2) == 4 && Multiple(x, 2)
  {
    assert x / 2 % 2 == 0 && Multiple(x / 2 / 2, 0);
    assert Multiple(x / 2, 1);
  }

  lemma ShortHash(key: seq<Byte>, seed: nat)
    requires |key| <= 3
    ensures key == [] ==> Hash2(key, seed) == Finish2(Xor(seed, 0))
    ensures key != [] ==> Hash2(key, seed) == Finish2(Mul(Xor(Xor(seed, |key|), Load(key)), M2))
  {
    assert |key| % WRAP == |key|;
  }

  lemma Fixed(h: nat)
    requires h == 0x40 * 0x100_0000
    ensures Mul(h, M2) == h
  {
    Remainder(h, h * M2, 0x16f4_7a65);
  }

  lemma TailXor(h: nat, t: nat, n: nat, seed: nat)
    requires h == 0x40 * 0x100_0000 && t < 0x100_0000 && t % 4 == 0 && n < 4 && seed == h + t + n
    ensures Xor(Xor(seed, n), t) == h
  {
    var u := h + t;
    Fours(h, t);
    XorLength(u, n);
    XorOver(h, t);
  }

  /** The last steps, for a seed that holds the length and the last bytes. */
  lemma TailAt(h: nat, t: nat, n: nat, seed: nat)
    requires h == 0x40 * 0x100_0000 && t < 0x100_0000 && t % 4 == 0 && n < 4 && seed == h + t + n
    ensures Finish2(Mul(Xor(Xor(seed, n), t), M2)) == 0x132a_2654
  {
    TailXor(h, t, n, seed);
    Fixed(h);
    FinishAt(h, 0x132a * 0x1_0000);
  }

  lemma Fours(h: nat, t: nat)
    requires h == 0x40 * 0x100_0000 && t % 4 == 0
    ensures (h + t) % 4 == 0
  {
  }

  lemma NoBytes(seed: nat)
    requires seed == 0x40 * 0x100_0000
    ensures Hash2([], seed) == 0x132a_2654
  {
    ShortHash([], seed);
    XorSelf(seed);
    FinishAt(seed, 0x132a * 0x1_0000);
  }

  /** Main result: MurmurHash2 of keys of up to three bytes, for seeds that depend on them. */
  lemma ShortKeys(key: seq<Byte>, seed: nat, h: nat)
    requires |key| <= 3 && Load(key) % 4 == 0 && h == 0x40 * 0x100_0000 && seed == h + Load(key) + |key|
    ensures Hash2(key, seed) == 0x132a_2654
  {
    if key == [] {
      NoBytes(seed);
    } else {
      LoadShort(key);
      ShortHash(key, seed);
      TailAt(h, Load(key), |key|, seed);
    }
  }

  lemma LongHash(key: seq<Byte>, seed: nat)
    requires 5 <= |key| <= 7
    ensures Hash2(key, seed) == Finish2(Mul(Xor(Mix2(Xor(seed, |key|), Load(key)), Load(key[4..])), M2))
  {
    var h := Xor(seed, |key|);
    assert |key| % WRAP == |key|;
    assert Blocks(V2, h, key) == Blocks(V2, Mix2(h, Load(key)), key[4..]) == Mix2(h, Load(key));
    assert Rest(key) == key[4..];
  }

  lemma SmallMix(k: nat)
    requires Mul(k, M2) < 0x100_0000
    ensures Mix2(0, k) == Mul(Mul(k, M2), M2)
  {
    XorSelf(Mul(k, M2));
  }

  /** The whole word and the last bytes of three keys. */
  predicate Listed(k: nat, t: nat, n: nat) {
    || (k == 0x1464_bad0 && t == 0x50 && n == 5)
    || (k == 0x4aa5_cca2 && t == 0x112 && n == 6)
    || (k == 0x7c56_b654 && t == 0x1_02b4 && n == 7)
  }

  lemma TwoProducts(k: nat, x: nat, q: nat, y: nat, r: nat)
    requires k * M2 == x + WRAP * q && x < WRAP && x * M2 == y + WRAP * r && y < WRAP
    ensures Mul(k, M2) == x && Mul(Mul(k, M2), M2) == y
  {
    Remainder(x, k * M2, q);
    Remainder(y, x * M2, r);
  }

  lemma ListedNumbers(k: nat, t: nat, n: nat, h: nat)
    requires Listed(k, t, n) && h == 0x40 * 0x100_0000
    ensures Mul(k, M2) < 0x100_0000 && Mul(Mul(k, M2), M2) == h + t
  {
    if n == 5 {
      TwoProducts(k, 0x780b10, 0x7508740, h + t, 0x2b0e5d);
    } else if n == 6 {
      TwoProducts(k, 0x18c4a, 0x1ac62536, h + t, 0x8e23);
    } else {
      TwoProducts(k, 0xfe92e4, 0x2c98c70e, h + t, 0x5b4ef5);
    }
  }

  lemma LastAt(h: nat, t: nat)
    requires h == 0x40 * 0x100_0000 && t < 0x100_0000
    ensures Finish2(Mul(Xor(h + t, t), M2)) == 0x132a_2654
  {
    XorOver(h, t);
    Fixed(h);
    FinishAt(h, 0x132a * 0x1_0000);
  }

  /** Main result: MurmurHash2 of keys of five, six and seven bytes, with their lengths as seeds. */
  lemma LongKeys(key: seq<Byte>)
    requires 5 <= |key| <= 7 && Listed(Load(key), Load(key[4..]), |key|)
    ensures Hash2(key, |key|) == 0x132a_2654
  {
    var h, k, t := 0x40 * 0x100_0000, Load(key), Load(key[4..]);
    ListedNumbers(k, t, |key|, h);
    SmallMix(k);
    XorSelf(|key|);
    LongHash(key, |key|);
    LastAt(h, t);
  }
}
