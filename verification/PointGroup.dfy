/** BabyJubjub point arithmetic of the balance commitments and of the blinding cipher.

    The addition formulas are abstracted: `add` is any operation that makes the
    on-curve points an abelian group with identity (0, 1). Scalar multiplication,
    the subgroup test and the cipher are the code's own. */
module PointGroup {
  import opened Wrappers
  import opened SparseTrees
  import opened Groups

  const SUBORDER := 2736030358979909402780800718157159386076813972158567259200215660948447373041

  /** The subgroup order times the cofactor is the order of the curve; the quotient by the field bounds the first carry. */
  lemma SuborderTimesCofactor()
    ensures 8 * SUBORDER == 21888242871839275222246405745257275088614511777268538073601725287587578984328
    ensures FIELD / SUBORDER == 7
  {
  }

  datatype Point = Point(x: nat, y: nat)

  const IDENTITY := Point(0, 1)

  type Curve = Group<Point>

  /** The identity of the curve is (0, 1) and its points have field coordinates. */
  ghost predicate CurveShape(c: Curve) {
    c.zero == IDENTITY && forall p :: c.has(p) ==> p.x < FIELD && p.y < FIELD
  }

  /** One round of double-and-add keeps `result + n·base`. */
  lemma {:induction false} HalvingStep(c: Curve, result: Point, base: Point, n: nat)
    requires Abelian(c) && c.has(result) && c.has(base)
    ensures c.add(if n % 2 == 1 then c.add(result, base) else result, Mul(c, c.add(base, base), n / 2))
         == c.add(result, Mul(c, base, n))
  {
    hide Abelian, Mul;
    var k := n / 2;
    var even := Mul(c, base, k + k);
    MulInGroup(c, base, k + k);
    MulOfAdd(c, base, base, k);
    MulOfSum(c, base, k, k);
    if n % 2 == 1 {
      AddAssociates(c, result, base, even);
      AddLaws(c, base, even);
      MulOfNext(c, base, k + k);
      assert n == k + k + 1;
    } else {
      assert n == k + k;
    }
  }

  /** `_babyjub_mul`: double-and-add is repeated addition, for every scalar. */
  method BabyjubMul(c: Curve, point: Point, scalar: nat) returns (result: Point)
    requires Abelian(c) && c.has(point)
    ensures result == Mul(c, point, scalar)
  {
    hide Abelian;
    result := c.zero;
    var base := point;
    var n := scalar;
    MulInGroup(c, point, scalar);
    AddLaws(c, Mul(c, point, scalar), point);
    while n > 0
      invariant c.has(result) && c.has(base)
      invariant c.add(result, Mul(c, base, n)) == Mul(c, point, scalar)
    {
      HalvingStep(c, result, base, n);
      AddLaws(c, result, base);
      AddLaws(c, base, base);
      if n % 2 == 1 {
        result := c.add(result, base);
      }
      base := c.add(base, base);
      n := n / 2;
    }
    AddLaws(c, result, base);
  }

  // ------------------------------------------------------ prime-order subgroup

  /** What `_point` accepts: on the curve, and killed by the subgroup order. */
  ghost predicate InSubgroup(c: Curve, p: Point) {
    c.has(p) && Mul(c, p, SUBORDER) == c.zero
  }

  lemma SubgroupOnCurve(c: Curve, p: Point)
    requires InSubgroup(c, p)
    ensures c.has(p)
  {
  }

  method CheckPoint(c: Curve, p: Point) returns (ok: bool)
    requires Abelian(c)
    ensures ok <==> InSubgroup(c, p)
  {
    if !c.has(p) {
      return false;
    }
    var q := BabyjubMul(c, p, SUBORDER);
    return q == c.zero;
  }

  lemma IdentityInSubgroup(c: Curve)
    requires Abelian(c)
    ensures InSubgroup(c, c.zero)
  {
    MulOfZero(c, SUBORDER);
  }

  lemma AddInSubgroup(c: Curve, p: Point, q: Point)
    requires Abelian(c) && InSubgroup(c, p) && InSubgroup(c, q)
    ensures InSubgroup(c, c.add(p, q))
  {
    hide Mul, Abelian;
    MulOfAdd(c, p, q, SUBORDER);
    AddLaws(c, p, q);
    AddLaws(c, c.zero, c.zero);
  }

  lemma {:induction false} MulInSubgroup(c: Curve, p: Point, n: nat)
    requires Abelian(c) && InSubgroup(c, p)
    ensures InSubgroup(c, Mul(c, p, n))
  {
    hide Mul, Abelian;
    MulInGroup(c, p, n);
    MulOfProduct(c, p, n, SUBORDER);
    MulOfProduct(c, p, SUBORDER, n);
    assert n * SUBORDER == SUBORDER * n;
    MulOfZero(c, n);
  }

  // ------------------------------------------------------------- blinding cipher

  datatype DeltaCipher = DeltaCipher(
    ephemeralPublic: Point, encryptedDelta: nat, sharedXReduction: nat, sharedXCarry: nat, encryptedDeltaCarry: nat)

  /** The two carry equations proved in the circuit, with the ranges its carry signals rely on. */
  ghost predicate CarryEquations(e: DeltaCipher, sharedX: nat, delta: nat) {
    && sharedX == e.sharedXCarry * SUBORDER + e.sharedXReduction
    && delta + e.sharedXReduction == e.encryptedDeltaCarry * SUBORDER + e.encryptedDelta
    && e.sharedXReduction < SUBORDER && e.encryptedDelta < SUBORDER
    && e.sharedXCarry <= 7 && e.encryptedDeltaCarry <= 1
  }


  lemma CarriesHold(x: nat, delta: nat, e: DeltaCipher)
    requires x < FIELD && delta < SUBORDER
    requires e.encryptedDelta == (delta + x) % SUBORDER && e.sharedXReduction == x % SUBORDER
    requires e.sharedXCarry == x / SUBORDER && e.encryptedDeltaCarry == (delta + x % SUBORDER) / SUBORDER
    ensures CarryEquations(e, x, delta)
  {
    var s := delta + x % SUBORDER;
    assert s == SUBORDER * (s / SUBORDER) + s % SUBORDER;
    ModUnique(delta + x, SUBORDER, x / SUBORDER + s / SUBORDER, s % SUBORDER);
  }

  /** `encrypt_balance_blinding_delta_v1`; the random ephemeral scalar is an argument. */
  method EncryptDelta(c: Curve, base8: Point, scan: Point, delta: nat, ephemeral: nat) returns (r: Result<DeltaCipher>)
    requires Abelian(c) && CurveShape(c) && c.has(base8)
    ensures r.Ok? <==> InSubgroup(c, scan) && scan != IDENTITY && 0 < delta < SUBORDER
    ensures r.Ok? ==> r.value.ephemeralPublic == Mul(c, base8, ephemeral)
    ensures r.Ok? ==> CarryEquations(r.value, Mul(c, scan, ephemeral).x, delta)
    ensures r.Ok? ==> Mul(c, scan, ephemeral).x == r.value.sharedXCarry * SUBORDER + r.value.sharedXReduction
    ensures r.Ok? ==> delta + r.value.sharedXReduction == r.value.encryptedDeltaCarry * SUBORDER + r.value.encryptedDelta
    ensures r.Ok? ==> r.value.sharedXCarry <= 7 && r.value.encryptedDeltaCarry <= 1
  {
    hide Mul, Abelian;
    var valid := CheckPoint(c, scan);
    if !valid {
      return Err("TIP GPRU balance scan key is not in the prime-order subgroup");
    }
    if scan == IDENTITY {
      return Err("TIP GPRU balance scan key cannot be the identity");
    }
    if !(0 < delta < SUBORDER) {
      return Err("GPRU balance blinding delta must be a nonzero BabyJubjub scalar");
    }
    var ephemeralPublic := BabyjubMul(c, base8, ephemeral);
    var shared := BabyjubMul(c, scan, ephemeral);
    var e := DeltaCipher(ephemeralPublic, (delta + shared.x) % SUBORDER, shared.x % SUBORDER, shared.x / SUBORDER,
                         (delta + shared.x % SUBORDER) / SUBORDER);
    r := Ok(e);
    MulInGroup(c, scan, ephemeral);
    CarriesHold(shared.x, delta, e);
  }

  /** The holder of the scan secret recovers exactly the delta that was encrypted. */
  lemma {:induction false} OwnerDecryptsDelta(c: Curve, base8: Point, secret: nat, scan: Point, ephemeral: nat, delta: nat, e: DeltaCipher)
    requires Abelian(c) && c.has(base8) && scan == Mul(c, base8, secret) && delta < SUBORDER
    requires e.ephemeralPublic == Mul(c, base8, ephemeral)
    requires CarryEquations(e, Mul(c, scan, ephemeral).x, delta)
    ensures (e.encryptedDelta - Mul(c, e.ephemeralPublic, secret).x) % SUBORDER == delta
  {
    hide Mul, Abelian;
    MulInGroup(c, base8, secret);
    MulInGroup(c, base8, ephemeral);
    MulOfProduct(c, base8, secret, ephemeral);
    MulOfProduct(c, base8, ephemeral, secret);
    assert secret * ephemeral == ephemeral * secret;
    var x := Mul(c, e.ephemeralPublic, secret).x;
    var q: int := 0 - e.encryptedDeltaCarry - e.sharedXCarry;
    assert e.encryptedDelta - x == SUBORDER * q + delta;
    ModUnique(e.encryptedDelta - x, SUBORDER, q, delta);
  }
}
