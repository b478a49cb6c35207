/** Reduction of a 32-byte digest into the BN254 scalar field by repeated big-endian
    subtraction in place. Bytes are numbers below 256. */
module Bn254Scalar {
  import opened SparseTrees
  import opened WideScalar

  const WORD0: seq<nat> := [0x30, 0x64, 0x4e, 0x72, 0xe1, 0x31, 0xa0, 0x29]
  const WORD1: seq<nat> := [0xb8, 0x50, 0x45, 0xb6, 0x81, 0x81, 0x58, 0x5d]
  const WORD2: seq<nat> := [0x28, 0x33, 0xe8, 0x48, 0x79, 0xb9, 0x70, 0x91]
  const WORD3: seq<nat> := [0x43, 0xe1, 0xf5, 0x93, 0xf0, 0x00, 0x00, 0x01]

  /** The field order, most significant byte first. */
  const MODULUS_BE: seq<nat> := WORD0 + WORD1 + WORD2 + WORD3

  function ModulusByte(i: nat): (b: nat)
    requires i < 32
    ensures b < 256
  {
    MODULUS_BE[i]
  }

  /** Big-endian value. */
  function Be(s: seq<nat>): nat {
    if s == [] then 0 else 256 * Be(s[..|s| - 1]) + s[|s| - 1]
  }

  /** `n.to_bytes(count, "big")`. */
  function ToBytes(n: nat, count: nat): (s: seq<nat>)
    ensures |s| == count && Bytes(s)
  {
    if count == 0 then [] else ToBytes(n / 256, count - 1) + [n % 256]
  }

  /** Rust's order on byte arrays. */
  predicate LexLess(a: seq<nat>, b: seq<nat>)
    requires |a| == |b|
  {
    a != [] && (a[0] < b[0] || (a[0] == b[0] && LexLess(a[1..], b[1..])))
  }

  lemma Times256(x: nat, p: nat)
    ensures 256 * (x * p) == x * (256 * p)
  {
  }

  lemma {:induction false} BeHead(s: seq<nat>)
    requires s != []
    ensures Be(s) == s[0] * Pow256(|s| - 1) + Be(s[1..])
  {
    if |s| > 1 {
      var front := s[..|s| - 1];
      BeHead(front);
      assert Be(s) == 256 * Be(front) + s[|s| - 1];
      assert Be(s[1..]) == 256 * Be(front[1..]) + s[|s| - 1] by {
        assert front[1..] == s[1..][..|s[1..]| - 1];
      }
      assert Pow256(|s| - 1) == 256 * Pow256(|s| - 2);
      hide Be, Pow256;
      Times256(s[0], Pow256(|s| - 2));
    }
  }

  lemma {:induction false} BeBound(s: seq<nat>)
    requires Bytes(s)
    ensures Be(s) < Pow256(|s|)
  {
    if s != [] {
      BeBound(s[..|s| - 1]);
    }
  }

  lemma Dominates(x: nat, y: nat, p: nat)
    requires x < y
    ensures x * p + p <= y * p
  {
    assert y * p == x * p + p + (y - x - 1) * p;
  }

  /** Byte order is number order. */
  lemma {:induction false} LexIsNumeric(a: seq<nat>, b: seq<nat>)
    requires |a| == |b| && Bytes(a) && Bytes(b)
    ensures LexLess(a, b) <==> Be(a) < Be(b)
  {
    if a != [] {
      BeHead(a);
      BeHead(b);
      BeBound(a[1..]);
      BeBound(b[1..]);
      var p := Pow256(|a| - 1);
      if a[0] < b[0] {
        Dominates(a[0], b[0], p);
      } else if b[0] < a[0] {
        Dominates(b[0], a[0], p);
      } else {
        LexIsNumeric(a[1..], b[1..]);
      }
    }
  }

  lemma {:induction false} BytesOfValue(s: seq<nat>)
    requires Bytes(s)
    ensures ToBytes(Be(s), |s|) == s
  {
    if s != [] {
      var front := s[..|s| - 1];
      BytesOfValue(front);
      assert Be(s) / 256 == Be(front) && Be(s) % 256 == s[|s| - 1];
      assert s == front + [s[|s| - 1]];
    }
  }

  lemma {:induction false} BeConcat(s: seq<nat>, t: seq<nat>)
    ensures Be(s + t) == Be(s) * Pow256(|t|) + Be(t)
  {
    if t == [] {
      assert s + t == s;
    } else {
      var front := t[..|t| - 1];
      BeConcat(s, front);
      assert Be(s + t) == 256 * Be(s + front) + t[|t| - 1] by {
        assert (s + t)[..|s + t| - 1] == s + front;
      }
      assert Be(t) == 256 * Be(front) + t[|t| - 1] && Pow256(|t|) == 256 * Pow256(|t| - 1);
      hide Be, Pow256;
      Times256(Be(s), Pow256(|t| - 1));
    }
  }

  lemma BePrefix(s: seq<nat>, k: nat)
    requires k < |s|
    ensures Be(s[..k + 1]) == 256 * Be(s[..k]) + s[k]
  {
    assert s[..k + 1][..k] == s[..k];
  }

  lemma {:induction false} BeOfWord(s: seq<nat>)
    requires |s| == 8
    ensures Be(s) == ((((((s[0] * 256 + s[1]) * 256 + s[2]) * 256 + s[3]) * 256 + s[4]) * 256 + s[5]) * 256 + s[6]) * 256 + s[7]
  {
    assert Be(s[..0]) == 0 && s[..8] == s;
    hide Be;
    BePrefix(s, 0); BePrefix(s, 1); BePrefix(s, 2); BePrefix(s, 3);
    BePrefix(s, 4); BePrefix(s, 5); BePrefix(s, 6); BePrefix(s, 7);
  }

  lemma ModulusValue()
    ensures Be(MODULUS_BE) == FIELD
  {
    EightBytes();
    hide Be, Pow256;
    BeOfWord(WORD0);
    BeOfWord(WORD1);
    BeOfWord(WORD2);
    BeOfWord(WORD3);
    BeConcat(WORD0, WORD1);
    assert Be(WORD0 + WORD1) == 0x30644e72e131a029b85045b68181585d;
    BeConcat(WORD0 + WORD1, WORD2);
    assert Be(WORD0 + WORD1 + WORD2) == 0x30644e72e131a029b85045b68181585d2833e84879b97091;
    BeConcat(WORD0 + WORD1 + WORD2, WORD3);
  }

  // ----------------------------------------------------------- subtraction in place

  function Owed(borrow: nat, n: nat): nat {
    borrow * Pow256(n)
  }

  lemma BorrowArithmetic(a: nat, m: nat, w: nat, borrow: nat, next: nat, p: nat)
    requires a + m + borrow == w + 256 * next
    ensures a * p + m * p + borrow * p == w * p + next * (256 * p)
  {
    assert (a + m + borrow) * p == a * p + m * p + borrow * p;
    assert (w + 256 * next) * p == w * p + (256 * next) * p;
    assert (256 * next) * p == next * (256 * p);
  }

  /** One byte of the borrow chain: the suffix equation moves one byte up. */
  lemma {:induction false} BorrowByte(after: seq<nat>, m: seq<nat>, was: seq<nat>, borrow: nat, next: nat)
    requires |after| == |m| == |was| >= 1
    requires Be(after[1..]) + Be(m[1..]) == Be(was[1..]) + Owed(borrow, |was| - 1)
    requires after[0] + m[0] + borrow == was[0] + 256 * next
    ensures Be(after) + Be(m) == Be(was) + Owed(next, |was|)
  {
    BeHead(after);
    BeHead(m);
    BeHead(was);
    assert Pow256(|was|) == 256 * Pow256(|was| - 1);
    hide Be, Pow256;
    BorrowArithmetic(after[0], m[0], was[0], borrow, next, Pow256(|was| - 1));
  }

  /** Bytes `i` and up are done: the new suffix plus the modulus suffix is the old one plus what is owed. */
  ghost predicate SubtractedFrom(value: seq<nat>, was: seq<nat>, i: nat, borrow: nat) {
    && |value| == |was| == 32 && i <= 32 && borrow < 2 && Bytes(value)
    && value[..i] == was[..i]
    && Be(value[i..]) + Be(MODULUS_BE[i..]) == Be(was[i..]) + Owed(borrow, 32 - i)
  }

  lemma SubtractedByte(before: seq<nat>, was: seq<nat>, i: nat, borrow: nat, byte: nat, next: nat)
    requires i < 32 && SubtractedFrom(before, was, i + 1, borrow) && next < 2 && byte < 256
    requires byte + ModulusByte(i) + borrow == before[i] + 256 * next
    ensures SubtractedFrom(before[i := byte], was, i, next)
  {
    hide Be, Owed;
    var value := before[i := byte];
    assert before[i] == before[..i + 1][i] == was[..i + 1][i] == was[i];
    assert value[i..][1..] == before[i + 1..];
    assert MODULUS_BE[i..][1..] == MODULUS_BE[i + 1..] && was[i..][1..] == was[i + 1..];
    assert value[..i] == before[..i + 1][..i] == was[..i + 1][..i] == was[..i];
    BorrowByte(value[i..], MODULUS_BE[i..], was[i..], borrow, next);
  }

  /** The inner loop: subtract the modulus from a 32-byte big-endian array. */
  method SubtractModulus(value: array<nat>)
    requires value.Length == 32 && Bytes(value[..]) && Be(value[..]) >= FIELD
    modifies value
    ensures Bytes(value[..]) && Be(value[..]) == Be(old(value[..])) - FIELD
  {
    var borrow := 0;
    ghost var was := value[..];
    var index := 32;
    NothingOwed(was);
    hide Be, SubtractedFrom, ModulusByte, Bytes;
    while index > 0
      invariant 0 <= index <= 32 && borrow < 2
      invariant SubtractedFrom(value[..], was, index, borrow)
    {
      ghost var before := value[..];
      index := index - 1;
      BytesSoFar(before, was, index + 1, borrow, index);
      var minuend := value[index];
      var subtrahend := ModulusByte(index) + borrow;
      if minuend >= subtrahend {
        value[index] := minuend - subtrahend;
        SubtractedByte(before, was, index, borrow, minuend - subtrahend, 0);
        borrow := 0;
      } else {
        value[index] := minuend + 256 - subtrahend;
        SubtractedByte(before, was, index, borrow, minuend + 256 - subtrahend, 1);
        borrow := 1;
      }
      assert value[..] == before[index := value[index]];
    }
    BytesSoFar(value[..], was, 0, borrow, 0);
    NoBorrowLeft(value[..], was, borrow);
  }

  lemma BytesSoFar(value: seq<nat>, was: seq<nat>, i: nat, borrow: nat, k: nat)
    requires SubtractedFrom(value, was, i, borrow) && k < 32
    ensures Bytes(value) && value[k] < 256
  {
  }

  lemma NothingOwed(was: seq<nat>)
    requires |was| == 32 && Bytes(was)
    ensures SubtractedFrom(was, was, 32, 0)
  {
  }

  lemma {:induction false} NoBorrowLeft(value: seq<nat>, was: seq<nat>, borrow: nat)
    requires SubtractedFrom(value, was, 0, borrow) && Be(was) >= FIELD
    ensures Be(value) == Be(was) - FIELD
  {
    assert value[0..] == value && MODULUS_BE[0..] == MODULUS_BE && was[0..] == was;
    ModulusValue();
    BeBound(value);
    hide Be, Pow256;
  }

  // -------------------------------------------------------------------- reduction

  /** 256^32 lies below six moduli. */
  lemma {:induction false} DigestBelowSixModuli(s: seq<nat>)
    requires |s| == 32 && Bytes(s)
    ensures Be(s) < 6 * FIELD
  {
    BeBound(s);
    EightBytes();
    assert Pow256(16) == 0x1_0000_0000_0000_0000_0000_0000_0000_0000;
    assert Pow256(24) == B3;
    assert Pow256(32) == B4;
  }

  /** `sha256_to_bn254_scalar`: the value modulo the field, after at most five subtractions. */
  method Sha256ToBn254Scalar(value: array<nat>) returns (ghost subtractions: nat)
    requires value.Length == 32 && Bytes(value[..])
    modifies value
    ensures Bytes(value[..]) && Be(value[..]) == Be(old(value[..])) % FIELD
    ensures value[..] == ToBytes(Be(old(value[..])) % FIELD, 32)
    ensures LexLess(value[..], MODULUS_BE)
    ensures subtractions <= 5
  {
    hide Be, LexLess, ToBytes;
    ghost var was := value[..];
    DigestBelowSixModuli(was);
    ModulusValue();
    subtractions := 0;
    LexIsNumeric(value[..], MODULUS_BE);
    while !LexLess(value[..], MODULUS_BE)
      invariant Bytes(value[..])
      invariant LexLess(value[..], MODULUS_BE) <==> Be(value[..]) < FIELD
      invariant Be(was) == Be(value[..]) + subtractions * FIELD
      decreases Be(value[..])
    {
      SubtractModulus(value);
      subtractions := subtractions + 1;
      LexIsNumeric(value[..], MODULUS_BE);
    }
    ModUnique(Be(was), FIELD, subtractions, Be(value[..]));
    BytesOfValue(value[..]);
  }

  /** `is_canonical_bn254_scalar`. */
  function IsCanonical(value: seq<nat>): (ok: bool)
    requires |value| == 32 && Bytes(value)
    ensures ok <==> Be(value) < FIELD
  {
    ModulusValue();
    LexIsNumeric(value, MODULUS_BE);
    LexLess(value, MODULUS_BE)
  }
}
