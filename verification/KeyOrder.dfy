/**
  BzTree's key comparison. Keys shorter than 16 bytes are compared byte by byte as signed
  characters, longer ones with memcmp as unsigned bytes; a common prefix is broken by length.
*/
module KeyOrder {
  type Byte = b: int | 0 <= b < 256
  type Bytes = seq<Byte>

  const SHORT := 16

  /** A key that is absent is the dummy key of an internal node's first child. */
  datatype MaybeKey = Null | Key(bytes: Bytes)

  function Signed(b: Byte): int {
    if b < 128 then b else b - 256
  }

  function Difference(x: Byte, y: Byte, signed: bool): int {
    if signed then Signed(x) - Signed(y) else x - y
  }

  /** The difference at the first byte where a and b disagree, 0 if one is a prefix of the other. */
  function FirstDifference(a: Bytes, b: Bytes, signed: bool): int {
    if a == [] || b == [] then 0
    else if a[0] != b[0] then Difference(a[0], b[0], signed)
    else FirstDifference(a[1..], b[1..], signed)
  }

  function Min(x: nat, y: nat): nat {
    if x < y then x else y
  }

  /** The loop of my_memcmp. */
  method MyMemcmp(a: Bytes, b: Bytes, size: nat) returns (cmp: int)
    requires size == Min(|a|, |b|)
    ensures cmp == FirstDifference(a, b, true)
  {
    for i := 0 to size
      invariant FirstDifference(a, b, true) == FirstDifference(a[i..], b[i..], true)
    {
      if a[i] != b[i] {
        return Signed(a[i]) - Signed(b[i]);
      }
    }
    return 0;
  }

  /** Negative, zero or positive as the first key is below, equal to or above the second. */
  function KeyCompare(k1: MaybeKey, k2: MaybeKey): int {
    if k1.Null? then -1
    else if k2.Null? then 1
    else
      var cmp := FirstDifference(k1.bytes, k2.bytes, Min(|k1.bytes|, |k2.bytes|) < SHORT);
      if cmp == 0 then |k1.bytes| - |k2.bytes| else cmp
  }

  predicate Less(a: Bytes, b: Bytes) {
    KeyCompare(Key(a), Key(b)) < 0
  }

  // ---------- Where the comparison is an order ----------

  /** A key as a fraction: dictionary order of byte strings is the order of these numbers. */
  function Rank(k: Bytes): (r: real)
    ensures 0.0 <= r < 1.0
    ensures r == 0.0 <==> k == []
  {
    if k == [] then 0.0 else (k[0] as real + 1.0 + Rank(k[1..])) / 258.0
  }

  predicate Low(k: Bytes) {
    forall i :: 0 <= i < |k| ==> k[i] < 128
  }

  predicate High(k: Bytes) {
    forall i :: 0 <= i < |k| ==> k[i] >= 128
  }

  predicate SameHalf(a: Bytes, b: Bytes) {
    (Low(a) && Low(b)) || (High(a) && High(b))
  }

  /** No byte differs: for every pair of keys, comparing equal is being equal. */
  lemma {:induction false} NoDifference(a: Bytes, b: Bytes, signed: bool)
    requires |a| == |b|
    ensures FirstDifference(a, b, signed) == 0 <==> a == b
  {
    if a != [] {
      NoDifference(a[1..], b[1..], signed);
      assert a == [a[0]] + a[1..] && b == [b[0]] + b[1..];
    }
  }

  lemma {:induction false} DifferenceIsRank(a: Bytes, b: Bytes, signed: bool)
    requires SameHalf(a, b)
    ensures FirstDifference(a, b, signed) < 0 ==> Rank(a) < Rank(b)
    ensures FirstDifference(a, b, signed) > 0 ==> Rank(a) > Rank(b)
    ensures FirstDifference(a, b, signed) == 0 ==>
              (|a| < |b| <==> Rank(a) < Rank(b)) && (|a| > |b| <==> Rank(a) > Rank(b))
  {
    if a != [] && b != [] && a[0] == b[0] {
      DifferenceIsRank(a[1..], b[1..], signed);
    }
  }

  /** Main result: on keys from one half of the byte range the comparison is a total order. */
  lemma CompareIsRank(a: Bytes, b: Bytes)
    requires SameHalf(a, b)
    ensures KeyCompare(Key(a), Key(b)) < 0 <==> Rank(a) < Rank(b)
    ensures KeyCompare(Key(a), Key(b)) > 0 <==> Rank(a) > Rank(b)
    ensures KeyCompare(Key(a), Key(b)) == 0 <==> a == b
  {
    DifferenceIsRank(a, b, Min(|a|, |b|) < SHORT);
    if |a| == |b| {
      NoDifference(a, b, Min(|a|, |b|) < SHORT);
    }
  }

  // ---------- And exactly there ----------

  predicate Over(k: Bytes, alphabet: set<Byte>) {
    forall i :: 0 <= i < |k| ==> k[i] in alphabet
  }

  ghost predicate TransitiveOver(alphabet: set<Byte>) {
    forall a, b, c :: Over(a, alphabet) && Over(b, alphabet) && Over(c, alphabet) ==>
      Less(a, b) && Less(b, c) ==> Less(a, c)
  }

  ghost predicate MixesHalves(alphabet: set<Byte>) {
    exists x, y :: x in alphabet && y in alphabet && x < 128 <= y
  }

  function Repeat(x: Byte, n: nat): (k: Bytes)
    ensures |k| == n && forall i :: 0 <= i < n ==> k[i] == x
  {
    seq(n, i => x)
  }

  /** Sixteen low bytes, sixteen high bytes and one low byte compare in a circle. */
  lemma MixedCycle(x: Byte, y: Byte)
    requires x < 128 <= y
    ensures Less(Repeat(x, SHORT), Repeat(y, SHORT)) && Less(Repeat(y, SHORT), [x]) && Less([x], Repeat(x, SHORT))
    ensures !Less(Repeat(x, SHORT), [x])
  {
    var xs, ys := Repeat(x, SHORT), Repeat(y, SHORT);
    assert FirstDifference(xs, ys, false) == x - y;
    assert FirstDifference(ys, [x], true) == Signed(y) - Signed(x);
    assert FirstDifference([x], xs, true) == FirstDifference([x][1..], xs[1..], true) == 0;
    assert FirstDifference(xs, [x], true) == FirstDifference(xs[1..], [x][1..], true) == 0;
  }

  /** Main result: over an alphabet the comparison is transitive if and only if it does not mix halves. */
  lemma TransitiveIffOneHalf(alphabet: set<Byte>)
    ensures TransitiveOver(alphabet) <==> !MixesHalves(alphabet)
  {
    if MixesHalves(alphabet) {
      var x, y :| x in alphabet && y in alphabet && x < 128 <= y;
      MixedCycle(x, y);
      assert Over(Repeat(x, SHORT), alphabet) && Over(Repeat(y, SHORT), alphabet) && Over([x], alphabet);
    } else {
      forall a, b, c | Over(a, alphabet) && Over(b, alphabet) && Over(c, alphabet) && Less(a, b) && Less(b, c)
        ensures Less(a, c)
      {
        OneHalf(alphabet, a, b);
        OneHalf(alphabet, b, c);
        OneHalf(alphabet, a, c);
        CompareIsRank(a, b);
        CompareIsRank(b, c);
        CompareIsRank(a, c);
      }
    }
  }

  lemma OneHalf(alphabet: set<Byte>, a: Bytes, b: Bytes)
    requires !MixesHalves(alphabet) && Over(a, alphabet) && Over(b, alphabet)
    ensures SameHalf(a, b)
  {
    if !Low(a) || !Low(b) {
      var y :| y in alphabet && y >= 128;
      assert forall x :: x in alphabet ==> x >= 128;
    }
  }
}
