/**
  32-bit words and their bytes. A word is a natural number; addition, multiplication and left
  shifts wrap around explicitly, and the bitwise operators work on binary digits.
*/
module Words {
  const WRAP := 0x1_0000_0000

  type Byte = b: int | 0 <= b < 256

  // ---------- Bitwise operators ----------

  function Or(x: nat, y: nat): nat {
    if x == 0 then y
    else if y == 0 then x
    else (if x % 2 == 1 || y % 2 == 1 then 1 else 0) + 2 * Or(x / 2, y / 2)
  }

  function Xor(x: nat, y: nat): nat {
    if x == 0 then y
    else if y == 0 then x
    else (if x % 2 != y % 2 then 1 else 0) + 2 * Xor(x / 2, y / 2)
  }

  function Pow2(n: nat): (p: nat)
    ensures p > 0
  {
    if n == 0 then 1 else 2 * Pow2(n - 1)
  }

  lemma {:induction false} OrStep(x: nat, y: nat)
    ensures Or(x, y) == (if x % 2 == 1 || y % 2 == 1 then 1 else 0) + 2 * Or(x / 2, y / 2)
  {
  }

  lemma {:induction false} XorStep(x: nat, y: nat)
    ensures Xor(x, y) == (if x % 2 != y % 2 then 1 else 0) + 2 * Xor(x / 2, y / 2)
  {
  }

  /** The n lowest binary digits are zero. */
  predicate Multiple(z: nat, n: nat) {
    n > 0 ==> z % 2 == 0 && Multiple(z / 2, n - 1)
  }

  lemma {:induction false} ProductIsMultiple(y: nat, n: nat)
    ensures Multiple(y * Pow2(n), n)
  {
    if n > 0 {
      var z := y * Pow2(n - 1);
      assert y * Pow2(n) == 2 * z;
      ProductIsMultiple(y, n - 1);
    }
  }

  /** Numbers without a common digit are added. */
  lemma {:induction false} OrDisjoint(x: nat, z: nat, n: nat)
    requires x < Pow2(n) && Multiple(z, n)
    ensures Or(x, z) == x + z && Or(z, x) == x + z
  {
    if n > 0 {
      OrDisjoint(x / 2, z / 2, n - 1);
      OrStep(x, z);
      OrStep(z, x);
    }
  }

  lemma {:induction false} XorDisjoint(x: nat, z: nat, n: nat)
    requires x < Pow2(n) && Multiple(z, n)
    ensures Xor(x, z) == x + z && Xor(z, x) == x + z
  {
    if n > 0 {
      XorDisjoint(x / 2, z / 2, n - 1);
      XorStep(x, z);
      XorStep(z, x);
    }
  }

  lemma {:induction false} XorAssociative(x: nat, y: nat, z: nat)
    ensures Xor(Xor(x, y), z) == Xor(x, Xor(y, z))
    decreases x + y + z
  {
    if x > 0 && y > 0 && z > 0 {
      XorAssociative(x / 2, y / 2, z / 2);
      var xy, yz := Xor(x / 2, y / 2), Xor(y / 2, z / 2);
      XorStep(x, y);
      XorStep(y, z);
      XorStep(Xor(x, y), z);
      XorStep(x, Xor(y, z));
      assert Xor(x, y) / 2 == xy && Xor(y, z) / 2 == yz;
    }
  }

  // ---------- Shifts by whole bytes ----------

  /** One past the largest number of n bytes. */
  function Scale(n: nat): nat
    requires n <= 3
  {
    if n == 0 then 1 else if n == 1 then 0x100 else if n == 2 then 0x1_0000 else 0x100_0000
  }

  /** A number shifted up by n bytes, without wrapping. */
  function Up(x: nat, n: nat): nat
    requires n <= 3
  {
    if n == 0 then x else if n == 1 then x * 0x100 else if n == 2 then x * 0x1_0000 else x * 0x100_0000
  }

  function Left(w: nat, n: nat): nat
    requires n <= 3
  {
    Up(w, n) % WRAP
  }

  function Right(w: nat, n: nat): nat
    requires n <= 3
  {
    if n == 0 then w else if n == 1 then w / 0x100 else if n == 2 then w / 0x1_0000 else w / 0x100_0000
  }

  lemma UpIsMultiple(y: nat, n: nat)
    requires n <= 3
    ensures Multiple(Up(y, n), 8 * n) && Scale(n) == Pow2(8 * n)
  {
    assert Pow2(8) == 0x100;
    assert Pow2(16) == 0x1_0000;
    assert Pow2(24) == 0x100_0000;
    ProductIsMultiple(y, 8 * n);
  }

  /** The low n bytes and the rest, joined. */
  lemma Join(x: nat, y: nat, n: nat)
    requires n <= 3 && x < Scale(n)
    ensures Or(x, Up(y, n)) == x + Up(y, n) && Or(Up(y, n), x) == x + Up(y, n)
    ensures Xor(x, Up(y, n)) == x + Up(y, n) && Xor(Up(y, n), x) == x + Up(y, n)
  {
    UpIsMultiple(y, n);
    OrDisjoint(x, Up(y, n), 8 * n);
    XorDisjoint(x, Up(y, n), 8 * n);
  }

  // ---------- Loads ----------

  function At(s: seq<Byte>, i: nat): nat {
    if i < |s| then s[i] else 0
  }

  function Four(a: nat, b: nat, c: nat, d: nat): nat {
    a + b * 0x100 + c * 0x1_0000 + d * 0x100_0000
  }

  /** A little-endian load of the first four bytes, with zeros past the end. */
  function Load(s: seq<Byte>): (w: nat)
    ensures w < WRAP
  {
    Four(At(s, 0), At(s, 1), At(s, 2), At(s, 3))
  }

  lemma LoadShort(s: seq<Byte>)
    requires |s| <= 3
    ensures Load(s) < Scale(|s|)
  {
  }

  lemma Divide1(r: nat, q: nat)
    requires r < 0x100
    ensures (r + q * 0x100) / 0x100 == q
  {
  }

  lemma Divide2(r: nat, q: nat)
    requires r < 0x1_0000
    ensures (r + q * 0x1_0000) / 0x1_0000 == q
  {
  }

  lemma Divide3(r: nat, q: nat)
    requires r < 0x100_0000
    ensures (r + q * 0x100_0000) / 0x100_0000 == q
  {
  }

  lemma Wrap(r: nat, q: nat)
    requires r < WRAP
    ensures (r + q * WRAP) % WRAP == r
  {
  }

  /** The bytes that a right shift keeps. */
  lemma RightOfFour(a: nat, b: nat, c: nat, d: nat, n: nat)
    requires a < 256 && b < 256 && c < 256 && d < 256 && 1 <= n <= 3
    ensures Right(Four(a, b, c, d), n)
            == if n == 1 then Four(b, c, d, 0) else if n == 2 then Four(c, d, 0, 0) else Four(d, 0, 0, 0)
  {
    if n == 1 {
      Divide1(a, Four(b, c, d, 0));
    } else if n == 2 {
      Divide2(a + b * 0x100, Four(c, d, 0, 0));
    } else {
      Divide3(a + b * 0x100 + c * 0x1_0000, d);
    }
  }

  /** The bytes that a left shift keeps. */
  lemma LeftOfFour(a: nat, b: nat, c: nat, d: nat, n: nat)
    requires a < 256 && b < 256 && c < 256 && d < 256 && 1 <= n <= 3
    ensures Left(Four(a, b, c, d), n)
            == if n == 1 then Up(Four(a, b, c, 0), 1) else if n == 2 then Up(Four(a, b, 0, 0), 2) else Up(a, 3)
  {
    if n == 1 {
      Wrap(Up(Four(a, b, c, 0), 1), d);
    } else if n == 2 {
      Wrap(Up(Four(a, b, 0, 0), 2), c + d * 0x100);
    } else {
      Wrap(Up(a, 3), b + c * 0x100 + d * 0x1_0000);
    }
  }

  /** Dropping the low bytes of a word. */
  lemma RightOfLoad(s: seq<Byte>, n: nat)
    requires 1 <= n <= 3 && n <= |s| <= 4
    ensures Right(Load(s), n) == Load(s[n..])
  {
    RightOfFour(At(s, 0), At(s, 1), At(s, 2), At(s, 3), n);
  }

  /** A short load shifted up and down again. */
  lemma UpAndDown(s: seq<Byte>, n: nat)
    requires 1 <= n <= 3 && |s| == 4 - n
    ensures Right(Left(Load(s), n), n) == Load(s)
  {
    LeftOfFour(At(s, 0), At(s, 1), At(s, 2), At(s, 3), n);
    if n == 1 {
      Divide1(0, Load(s));
    } else if n == 2 {
      Divide2(0, Load(s));
    } else {
      Divide3(0, Load(s));
    }
  }

  /** The word that straddles two neighbouring words. */
  lemma Straddle(p: seq<Byte>, d: seq<Byte>)
    requires 1 <= |p| <= 3
    ensures Or(Load(p), Left(Load(d), |p|)) == Load(p + d)
  {
    var a, b, c := At(d, 0), At(d, 1), At(d, 2);
    var kept := if |p| == 1 then Four(a, b, c, 0) else if |p| == 2 then Four(a, b, 0, 0) else a;
    LeftOfFour(a, b, c, At(d, 3), |p|);
    LoadShort(p);
    Join(Load(p), kept, |p|);
  }
}
