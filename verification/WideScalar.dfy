/** The on-chain reduction of a 64-byte digest modulo the ristretto255 group order
    (the wide reduction of section 4.4 of RFC 9496), over four u64 limbs.

    A limb is a number below 2^64; shifts, wrapping subtraction and truncation are
    written out. */
module WideScalar {
  import opened SparseTrees

  const B1: nat := 0x1_0000_0000_0000_0000
  const B2: nat := 0x1_0000_0000_0000_0000_0000_0000_0000_0000
  const B3: nat := 0x1_0000_0000_0000_0000_0000_0000_0000_0000_0000_0000_0000_0000
  const B4: nat := 0x1_0000_0000_0000_0000_0000_0000_0000_0000_0000_0000_0000_0000_0000_0000_0000_0000

  /** The group order. */
  const ORDER: nat := 0x1000_0000_0000_0000_0000_0000_0000_0000_14de_f9de_a2f7_9cd6_5812_631a_5cf5_d3ed

  const SCALAR_ORDER: seq<nat> := [0x5812_631a_5cf5_d3ed, 0x14de_f9de_a2f7_9cd6, 0, 0x1000_0000_0000_0000]

  predicate Limbs(s: seq<nat>) {
    |s| == 4 && forall i :: 0 <= i < 4 ==> s[i] < B1
  }

  function Base(i: nat): nat {
    if i == 0 then 1 else if i == 1 then B1 else if i == 2 then B2 else if i == 3 then B3 else B4
  }

  /** Number held by the low `i` limbs. */
  function Low(s: seq<nat>, i: nat): nat
    requires |s| == 4 && i <= 4
  {
    if i == 0 then 0
    else if i == 1 then s[0]
    else if i == 2 then s[0] + s[1] * B1
    else if i == 3 then s[0] + s[1] * B1 + s[2] * B2
    else s[0] + s[1] * B1 + s[2] * B2 + s[3] * B3
  }

  function Value(s: seq<nat>): nat
    requires |s| == 4
  {
    Low(s, 4)
  }

  lemma OrderLimbs()
    ensures Limbs(SCALAR_ORDER) && Value(SCALAR_ORDER) == ORDER
  {
  }

  lemma LowStep(s: seq<nat>, i: nat)
    requires |s| == 4 && i < 4
    ensures Low(s, i + 1) == Low(s, i) + (if i == 0 then s[0] else if i == 1 then s[1] * B1 else if i == 2 then s[2] * B2 else s[3] * B3)
  {
  }

  lemma LowDependsOnPrefix(s: seq<nat>, t: seq<nat>, i: nat)
    requires |s| == |t| == 4 && i <= 4 && s[..i] == t[..i]
    ensures Low(s, i) == Low(t, i)
  {
    assert forall k :: 0 <= k < i ==> s[..i][k] == t[..i][k];
  }

  // ---------------------------------------------------------------- one round

  /** `(x << 1) | carry` and the bit it pushes out. */
  lemma ShiftLimb(x: nat, carry: nat)
    requires x < B1 && carry < 2
    ensures x / 0x8000_0000_0000_0000 < 2 && (2 * x) % B1 + carry < B1
    ensures (2 * x) % B1 + carry + (x / 0x8000_0000_0000_0000) * B1 == 2 * x + carry
  {
  }

  /** Limb `i` of a doubling: its carry moves one limb up. */
  lemma ShiftStep(after: seq<nat>, before: seq<nat>, was: seq<nat>, i: nat, carry: nat, next: nat, bit: nat)
    requires |after| == |before| == |was| == 4 && i < 4 && after[..i] == before[..i] && carry < 2 && next < 2
    requires Low(before, i) + carry * Base(i) == 2 * Low(was, i) + bit
    requires after[i] + next * B1 == 2 * was[i] + carry
    ensures Low(after, i + 1) + next * Base(i + 1) == 2 * Low(was, i + 1) + bit
  {
    LowDependsOnPrefix(after, before, i);
    LowStep(after, i);
    LowStep(was, i);
  }

  /** Shift the limbs left by one and bring in `bit`; the bit shifted out of the top is returned. */
  method ShiftIn(a: array<nat>, bit: nat) returns (carry: nat)
    requires Limbs(a[..]) && bit < 2
    modifies a
    ensures Limbs(a[..]) && carry < 2
    ensures Value(a[..]) + carry * B4 == 2 * Value(old(a[..])) + bit
  {
    carry := bit;
    ghost var was := a[..];
    assert Low(a[..], 0) + carry * Base(0) == 2 * Low(was, 0) + bit;
    assert Base(4) == B4;
    hide Low, Base;
    for index := 0 to 4
      invariant Limbs(a[..]) && carry < 2
      invariant a[index..] == was[index..]
      invariant Low(a[..], index) + carry * Base(index) == 2 * Low(was, index) + bit
    {
      ghost var before := a[..];
      assert a[index] == a[index..][0] == was[index..][0] == was[index];
      var nextCarry := a[index] / 0x8000_0000_0000_0000;
      a[index] := (2 * a[index]) % B1 + carry;
      ShiftLimb(was[index], carry);
      ShiftStep(a[..], before, was, index, carry, nextCarry, bit);
      carry := nextCarry;
    }
  }

  /** The limb-wise comparison, most significant limb first. */
  method AtLeastOrder(s: seq<nat>) returns (ge: bool)
    requires Limbs(s)
    ensures ge <==> Value(s) >= ORDER
  {
    var index := 4;
    while index > 0
      invariant 0 <= index <= 4
      invariant forall k :: index <= k < 4 ==> s[k] == SCALAR_ORDER[k]
    {
      index := index - 1;
      if s[index] < SCALAR_ORDER[index] {
        return false;
      }
      if s[index] > SCALAR_ORDER[index] {
        return true;
      }
    }
    return true;
  }

  /** `overflowing_sub` on u64. */
  function OverflowingSub(x: nat, y: nat): (nat, bool) {
    if x >= y then (x - y, false) else ((x + B1 - y) % B1, true)
  }

  function Borrow(borrow: bool): nat {
    if borrow then 1 else 0
  }

  /** Limb `i` of a subtraction: its borrow moves one limb up. */
  lemma BorrowStep(after: seq<nat>, before: seq<nat>, was: seq<nat>, i: nat, borrow: bool, next: bool)
    requires |after| == |before| == |was| == 4 && i < 4 && after[..i] == before[..i]
    requires Low(before, i) == Low(was, i) - Low(SCALAR_ORDER, i) + Borrow(borrow) * Base(i)
    requires after[i] == was[i] - SCALAR_ORDER[i] - Borrow(borrow) + Borrow(next) * B1
    ensures Low(after, i + 1) == Low(was, i + 1) - Low(SCALAR_ORDER, i + 1) + Borrow(next) * Base(i + 1)
  {
    LowDependsOnPrefix(after, before, i);
    LowStep(after, i);
    LowStep(was, i);
    LowStep(SCALAR_ORDER, i);
  }

  /** The two chained `overflowing_sub` calls subtract limb and borrow exactly. */
  lemma DoubleBorrow(x: nat, y: nat, borrow: bool)
    requires x < B1 && y < B1
    ensures var first := OverflowingSub(x, y); var second := OverflowingSub(first.0, Borrow(borrow));
      second.0 < B1 && second.0 == x - y - Borrow(borrow) + Borrow(first.1 || second.1) * B1
  {
  }

  /** Subtract the order in place with the two-step borrow chain. */
  method SubtractOrder(a: array<nat>)
    requires Limbs(a[..]) && Value(a[..]) >= ORDER
    modifies a
    ensures Limbs(a[..]) && Value(a[..]) == Value(old(a[..])) - ORDER
  {
    OrderLimbs();
    var borrow := false;
    ghost var was := a[..];
    assert Low(a[..], 0) == Low(was, 0) - Low(SCALAR_ORDER, 0) + Borrow(borrow) * Base(0);
    assert Base(4) == B4;
    ValueBelow(was);
    hide Low, Base, OverflowingSub;
    for index := 0 to 4
      invariant Limbs(a[..])
      invariant a[index..] == was[index..]
      invariant Low(a[..], index) == Low(was, index) - Low(SCALAR_ORDER, index) + Borrow(borrow) * Base(index)
    {
      ghost var before := a[..];
      assert a[index] == a[index..][0] == was[index..][0] == was[index];
      DoubleBorrow(a[index], SCALAR_ORDER[index], borrow);
      var first := OverflowingSub(a[index], SCALAR_ORDER[index]);
      var second := OverflowingSub(first.0, Borrow(borrow));
      a[index] := second.0;
      BorrowStep(a[..], before, was, index, borrow, first.1 || second.1);
      borrow := first.1 || second.1;
    }
    ValueBelow(a[..]);
  }

  lemma ValueBelow(s: seq<nat>)
    requires Limbs(s)
    ensures Low(s, 4) < B4
  {
  }

  // ------------------------------------------------------------- bytes and bits

  predicate Bytes(s: seq<nat>) {
    forall i :: 0 <= i < |s| ==> s[i] < 256
  }

  /** Little-endian value. */
  function Le(s: seq<nat>): nat {
    if s == [] then 0 else s[0] + 256 * Le(s[1..])
  }

  function Pow256(n: nat): nat {
    if n == 0 then 1 else 256 * Pow256(n - 1)
  }

  lemma {:induction false} LeConcat(s: seq<nat>, t: seq<nat>)
    ensures Le(s + t) == Le(s) + Pow256(|s|) * Le(t)
  {
    if s == [] {
      assert s + t == t;
    } else {
      LeConcat(s[1..], t);
      assert (s + t)[1..] == s[1..] + t;
      assert 256 * (Pow256(|s| - 1) * Le(t)) == Pow256(|s|) * Le(t);
    }
  }

  /** `(wide[k / 8] >> (k % 8)) & 1`. */
  function Bit(wide: seq<nat>, k: nat): nat
    requires k < 8 * |wide|
  {
    Shr(wide[k / 8], k % 8) % 2
  }

  /** The number formed by bits `k` and up. */
  function HighBits(wide: seq<nat>, k: nat): nat
    requires k <= 8 * |wide|
    decreases 8 * |wide| - k
  {
    if k == 8 * |wide| then 0 else 2 * HighBits(wide, k + 1) + Bit(wide, k)
  }

  lemma TwiceProduct(p: nat, n: nat)
    ensures 2 * (p * n) == (2 * p) * n
  {
  }

  lemma NextBit(wide: seq<nat>, k: nat)
    requires k < 8 * |wide|
    ensures HighBits(wide, k) == 2 * HighBits(wide, k + 1) + Bit(wide, k)
  {
  }

  lemma BitOfByte(wide: seq<nat>, j: nat, i: nat)
    requires j < |wide| && i < 8
    ensures Bit(wide, 8 * j + i) == Shr(wide[j], i) % 2
    ensures Shr(wide[j], i) == 2 * Shr(wide[j], i + 1) + Shr(wide[j], i) % 2
  {
  }

  lemma {:induction false} ByteBits(wide: seq<nat>, j: nat, i: nat)
    requires Bytes(wide) && j < |wide| && i <= 8
    ensures HighBits(wide, 8 * j + i) == Pow2(8 - i) * HighBits(wide, 8 * j + 8) + Shr(wide[j], i)
    decreases 8 - i
  {
    hide HighBits, Bit;
    if i == 8 {
      assert Pow2(8) == 256;
      ShrBound(wide[j], 8, 8);
    } else {
      hide Shr;
      ByteBits(wide, j, i + 1);
      NextBit(wide, 8 * j + i);
      BitOfByte(wide, j, i);
      TwiceProduct(Pow2(7 - i), HighBits(wide, 8 * j + 8));
    }
  }

  /** Reading all bits from the top is reading the bytes little-endian. */
  lemma {:induction false} BitsAreBytes(wide: seq<nat>, j: nat)
    requires Bytes(wide) && j <= |wide|
    ensures HighBits(wide, 8 * j) == Le(wide[j..])
    decreases |wide| - j
  {
    if j < |wide| {
      BitsAreBytes(wide, j + 1);
      ByteBits(wide, j, 0);
      assert Pow2(8) == 256;
      assert wide[j..][1..] == wide[j + 1..];
    }
  }

  function LeBytes(n: nat, count: nat): (s: seq<nat>)
    ensures |s| == count && Bytes(s)
  {
    if count == 0 then [] else [n % 256] + LeBytes(n / 256, count - 1)
  }

  lemma {:induction false} LeBytesValue(n: nat, count: nat)
    requires n < Pow256(count)
    ensures Le(LeBytes(n, count)) == n
  {
    if count > 0 {
      LeBytesValue(n / 256, count - 1);
      assert LeBytes(n, count)[1..] == LeBytes(n / 256, count - 1);
    }
  }

  /** The bytes of the value are the bytes. */
  lemma {:induction false} LeBytesOfValue(b: seq<nat>)
    requires Bytes(b)
    ensures LeBytes(Le(b), |b|) == b
  {
    if b != [] {
      LeBytesOfValue(b[1..]);
      assert Le(b) % 256 == b[0] && Le(b) / 256 == Le(b[1..]);
      assert b == [b[0]] + b[1..];
    }
  }

  lemma EightBytes()
    ensures Pow256(8) == B1
  {
    assert Pow256(4) == 0x1_0000_0000;
  }

  /** Four little-endian limbs and their 32 bytes hold the same number. */
  lemma {:induction false} LimbBytes(b: seq<nat>, s: seq<nat>)
    requires |b| == 32 && |s| == 4 && forall i :: 0 <= i < 4 ==> Le(b[8 * i..8 * i + 8]) == s[i]
    ensures Le(b) == Value(s)
  {
    EightBytes();
    hide Le, Pow256;
    var c0, c1, c2, c3 := b[8 * 0..8 * 0 + 8], b[8 * 1..8 * 1 + 8], b[8 * 2..8 * 2 + 8], b[8 * 3..8 * 3 + 8];
    assert c2 + c3 == b[16..32];
    assert c1 + b[16..32] == b[8..32];
    assert c0 + b[8..32] == b;
    LeConcat(c0, c1 + (c2 + c3));
    LeConcat(c1, c2 + c3);
    LeConcat(c2, c3);
  }

  lemma {:induction false} LeBound(s: seq<nat>)
    requires Bytes(s)
    ensures Le(s) < Pow256(|s|)
  {
    if s != [] {
      LeBound(s[1..]);
    }
  }

  // ------------------------------------------------------------- entry points

  /** `scalar_is_canonical`. */
  method ScalarIsCanonical(b: seq<nat>) returns (canonical: bool)
    requires |b| == 32 && Bytes(b)
    ensures canonical <==> Le(b) < ORDER
  {
    var limbs: seq<nat> := [];
    EightBytes();
    for index := 0 to 4
      invariant |limbs| == index
      invariant forall i :: 0 <= i < index ==> limbs[i] == Le(b[8 * i..8 * i + 8]) < B1
    {
      LeBound(b[8 * index..8 * index + 8]);
      limbs := limbs + [Le(b[8 * index..8 * index + 8])];
    }
    LimbBytes(b, limbs);
    var ge := AtLeastOrder(limbs);
    return !ge;
  }

  lemma RoundKeepsRemainder(high: nat, bit: nat, r: nat)
    requires r == high % ORDER && bit < 2
    ensures (2 * high + bit) % ORDER == if 2 * r + bit >= ORDER then 2 * r + bit - ORDER else 2 * r + bit
    ensures 2 * r + bit < 2 * ORDER < B4
  {
    var q := high / ORDER;
    if 2 * r + bit >= ORDER {
      ModUnique(2 * high + bit, ORDER, 2 * q + 1, 2 * r + bit - ORDER);
    } else {
      ModUnique(2 * high + bit, ORDER, 2 * q, 2 * r + bit);
    }
  }

  /** One round of the loop, on the array: shift, compare, subtract at most once. */
  method Round(a: array<nat>, bit: nat, ghost high: nat)
    requires Limbs(a[..]) && bit < 2 && Value(a[..]) == high % ORDER
    modifies a
    ensures Limbs(a[..]) && Value(a[..]) == (2 * high + bit) % ORDER
  {
    RoundKeepsRemainder(high, bit, Value(a[..]));
    var carry := ShiftIn(a, bit);
    assert carry == 0;
    var ge := AtLeastOrder(a[..]);
    if ge {
      SubtractOrder(a);
    }
  }

  /** `reduce_wide_scalar`: exactly the remainder, hence always a canonical scalar. */
  method ReduceWideScalar(wide: seq<nat>) returns (b: seq<nat>)
    requires |wide| == 64 && Bytes(wide)
    ensures |b| == 32 && Bytes(b)
    ensures Le(b) == Le(wide) % ORDER
    ensures Le(b) < ORDER
  {
    hide HighBits, Le;
    var remainder := new nat[4](_ => 0);
    var bitIndex := 512;
    NoBits(wide);
    while bitIndex > 0
      invariant 0 <= bitIndex <= 512
      invariant Limbs(remainder[..]) && Value(remainder[..]) == HighBits(wide, bitIndex) % ORDER
    {
      bitIndex := bitIndex - 1;
      NextBit(wide, bitIndex);
      Round(remainder, Bit(wide, bitIndex), HighBits(wide, bitIndex + 1));
    }
    BitsAreBytes(wide, 0);
    assert wide[0..] == wide;
    b := LimbsToBytes(remainder[..]);
  }

  lemma {:induction false} NoBits(wide: seq<nat>)
    requires |wide| == 64
    ensures HighBits(wide, 512) == 0
  {
  }

  method LimbsToBytes(s: seq<nat>) returns (b: seq<nat>)
    requires Limbs(s)
    ensures |b| == 32 && Bytes(b) && Le(b) == Value(s)
  {
    hide Le, LeBytes;
    b := [];
    EightBytes();
    for index := 0 to 4
      invariant |b| == 8 * index && Bytes(b)
      invariant forall i :: 0 <= i < index ==> Le(b[8 * i..8 * i + 8]) == s[i]
    {
      var chunk := LeBytes(s[index], 8);
      LeBytesValue(s[index], 8);
      ghost var before := b;
      b := b + chunk;
      assert forall i :: 0 <= i < index ==> b[8 * i..8 * i + 8] == before[8 * i..8 * i + 8];
      assert b[8 * index..8 * index + 8] == chunk;
    }
    LimbBytes(b, s);
  }
}
