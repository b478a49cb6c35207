/** One-time DNA keys: derivation by the Node, the public Chaum-Pedersen check, and
    recovery by the owner, over any group of the ristretto255 order.

    Point compression, SHA3-512 and scalar inversion are parameters with their
    defining properties; every scalar equation is the code's own. */
module DnaKeys {
  import opened Wrappers
  import opened Sequences
  import opened SparseTrees
  import opened Groups
  import opened WideScalar

  type Key = seq<nat>

  datatype Suite<!P(==)> = Suite(
    g: Group<P>, H: P, compress: P -> Key, decompress: Key -> Option<P>, sha3: seq<nat> -> seq<nat>, invert: nat -> nat)

  ghost predicate ValidSuite<P(!new)>(s: Suite<P>) {
    && Abelian(s.g) && s.g.has(s.H) && s.H != s.g.zero
    && (forall p :: s.g.has(p) ==> s.decompress(s.compress(p)) == Some(p))
    && (forall k :: s.decompress(k).Some? ==> s.g.has(s.decompress(k).value))
    && (forall p :: s.g.has(p) ==> Mul(s.g, p, ORDER) == s.g.zero)
    && (forall t :: 0 < t < ORDER ==> Modulo(Times(t, s.invert(t))) == 1)
    && (forall m :: |s.sha3(m)| == 64 && Bytes(s.sha3(m)))
  }

  function Times(a: nat, b: nat): nat {
    a * b
  }

  lemma SuiteGroup<P(!new)>(s: Suite<P>)
    requires ValidSuite(s)
    ensures Abelian(s.g) && s.g.has(s.H) && s.H != s.g.zero
  {
  }

  lemma KeyRoundTrip<P(!new)>(s: Suite<P>, p: P)
    requires ValidSuite(s) && s.g.has(p)
    ensures s.decompress(s.compress(p)) == Some(p)
  {
  }

  lemma KeyInGroup<P(!new)>(s: Suite<P>, k: Key)
    requires ValidSuite(s) && s.decompress(k).Some?
    ensures s.g.has(s.decompress(k).value)
  {
  }

  lemma OrderTimes<P(!new)>(s: Suite<P>, p: P)
    requires ValidSuite(s) && s.g.has(p)
    ensures Mul(s.g, p, ORDER) == s.g.zero
  {
  }

  lemma InverseScalar<P(!new)>(s: Suite<P>, t: nat)
    requires ValidSuite(s) && 0 < t < ORDER
    ensures Modulo(Times(t, s.invert(t))) == 1
  {
  }

  // -------------------------------------------------------------- scalar action

  lemma OrderKills<P(!new)>(s: Suite<P>, p: P, q: nat)
    requires ValidSuite(s) && s.g.has(p)
    ensures Mul(s.g, p, Times(ORDER, q)) == s.g.zero
  {
    hide Mul, ValidSuite, Abelian;
    SuiteGroup(s);
    OrderTimes(s, p);
    MulTwice(s, p, ORDER, q);
    MulOfZero(s.g, q);
  }

  /** Scalar arithmetic is modulo the group order. */
  function Modulo(n: nat): (r: nat)
    ensures r < ORDER
  {
    n % ORDER
  }

  lemma SplitOrder(n: nat) returns (q: nat)
    ensures n == Times(ORDER, q) + Modulo(n)
  {
    q := n / ORDER;
  }

  /** Scalars act modulo the group order. */
  lemma {:induction false} MulModOrder<P(!new)>(s: Suite<P>, p: P, n: nat)
    requires ValidSuite(s) && s.g.has(p)
    ensures Mul(s.g, p, Modulo(n)) == Mul(s.g, p, n)
  {
    hide Mul, ValidSuite, Abelian, Modulo, Times;
    SuiteGroup(s);
    var q := SplitOrder(n);
    var r := Modulo(n);
    MulOfSum(s.g, p, Times(ORDER, q), r);
    OrderKills(s, p, q);
    MulInGroup(s.g, p, r);
    ZeroIsUnit(s.g, Mul(s.g, p, r));
  }

  lemma ZeroIsUnit<P(!new)>(g: Group<P>, p: P)
    requires Abelian(g) && g.has(p)
    ensures g.add(g.zero, p) == p
  {
  }

  lemma {:induction false} MulTwice<P(!new)>(s: Suite<P>, p: P, a: nat, b: nat)
    requires Abelian(s.g) && s.g.has(p)
    ensures Mul(s.g, Mul(s.g, p, a), b) == Mul(s.g, Mul(s.g, p, b), a) == Mul(s.g, p, Times(a, b)) == Mul(s.g, p, Times(b, a))
  {
    hide Mul, Abelian;
    MulOfProduct(s.g, p, a, b);
    MulOfProduct(s.g, p, b, a);
    assert a * b == b * a;
  }

  lemma MulOne<P(!new)>(s: Suite<P>, p: P)
    requires Abelian(s.g) && s.g.has(p)
    ensures Mul(s.g, p, 1) == p
  {
    assert Mul(s.g, p, 1) == s.g.add(Mul(s.g, p, 0), p);
  }

  /** Multiplying by a non-zero scalar and by its inverse is the identity, in either order. */
  lemma {:induction false} InverseUndoes<P(!new)>(s: Suite<P>, p: P, t: nat)
    requires ValidSuite(s) && s.g.has(p) && 0 < t < ORDER
    ensures Mul(s.g, Mul(s.g, p, t), s.invert(t)) == p
    ensures Mul(s.g, Mul(s.g, p, s.invert(t)), t) == p
  {
    hide Mul, ValidSuite, Abelian, Modulo, Times;
    SuiteGroup(s);
    InverseScalar(s, t);
    MulTwice(s, p, t, s.invert(t));
    MulModOrder(s, p, Times(t, s.invert(t)));
    MulOne(s, p);
  }

  lemma {:induction false} NonzeroStays<P(!new)>(s: Suite<P>, p: P, t: nat)
    requires ValidSuite(s) && s.g.has(p) && p != s.g.zero && 0 < t < ORDER
    ensures Mul(s.g, p, t) != s.g.zero
  {
    hide Mul, ValidSuite, Abelian, Modulo, Times;
    SuiteGroup(s);
    InverseUndoes(s, p, t);
    MulOfZero(s.g, s.invert(t));
  }

  lemma Cancel<P(!new)>(s: Suite<P>, p: P, a: P, b: P)
    requires ValidSuite(s) && s.g.has(p) && s.g.has(a) && s.g.has(b) && s.g.add(p, a) == s.g.add(p, b)
    ensures a == b
  {
    hide Mul, ValidSuite, Abelian, Modulo, Times;
    SuiteGroup(s);
    OrderTimes(s, p);
    var n := Mul(s.g, p, ORDER - 1);
    MulInGroup(s.g, p, ORDER - 1);
    MulOfNext(s.g, p, ORDER - 1);
    AddAssociates(s.g, n, p, a);
    AddAssociates(s.g, n, p, b);
    ZeroIsUnit(s.g, a);
    ZeroIsUnit(s.g, b);
  }

  // --------------------------------------------------------------- transcripts

  function Ascii(text: string): seq<nat> {
    if text == "" then [] else Ascii(text[..|text| - 1]) + [text[|text| - 1] as nat]
  }

  const TWEAK_DOMAIN: seq<nat> := Ascii("TSN_GPRU_DNA_ELGAMAL_TWEAK_V1") + [0]
  const PROOF_DOMAIN: seq<nat> := Ascii("TSN_GPRU_DNA_ELGAMAL_DLEQ_PROOF_V1") + [0]

  /** `from_bytes_mod_order_wide`, which `WideScalar.ReduceWideScalar` computes on chain. */
  function Wide(b: seq<nat>): (n: nat)
    ensures n < ORDER
  {
    Modulo(Le(b))
  }

  /** nonce + challenge·scalar. */
  function Response(nonce: nat, challenge: nat, scalar: nat): (r: nat)
    ensures r < ORDER
  {
    Modulo(nonce + Times(challenge, scalar))
  }

  /** secret / tweak. */
  function OneTimeSecret<P>(s: Suite<P>, secret: nat, tweak: nat): (r: nat)
    ensures r < ORDER
  {
    Modulo(Times(secret, s.invert(tweak)))
  }

  datatype Proof = Proof(shared: Key, generatorCommitment: Key, scanCommitment: Key, response: Key)

  datatype NodeKey = NodeKey(ephemeral: Key, oneTime: Key, proof: Proof)

  datatype OwnerKey = OwnerKey(secret: nat, oneTime: Key)

  function Tweak<P>(s: Suite<P>, dna: seq<nat>, shared: Key): nat {
    Wide(s.sha3(TWEAK_DOMAIN + dna + shared))
  }

  function Challenge<P>(s: Suite<P>, scan: Key, dna: seq<nat>, ephemeral: Key, oneTime: Key, shared: Key, gc: Key, sc: Key): nat {
    Wide(s.sha3(PROOF_DOMAIN + dna + scan + ephemeral + oneTime + shared + gc + sc))
  }

  /** `from_canonical_bytes`. */
  function Scalar(b: Key): Option<nat> {
    if |b| == 32 && Bytes(b) && Le(b) < ORDER then Some(Le(b)) else None
  }

  lemma {:induction false} ScalarRoundTrip(n: nat)
    requires n < ORDER
    ensures Scalar(LeBytes(n, 32)) == Some(n)
  {
    EightBytes();
    assert Pow256(16) == B2 && Pow256(24) == B3 && Pow256(32) == B4;
    LeBytesValue(n, 32);
  }

  /** The two Chaum-Pedersen equations. */
  predicate Accepting<P(==)>(g: Group<P>, H: P, scan: P, ephemeral: P, shared: P, gc: P, sc: P, challenge: nat, response: nat) {
    && Mul(g, H, response) == g.add(gc, Mul(g, ephemeral, challenge))
    && Mul(g, scan, response) == g.add(sc, Mul(g, shared, challenge))
  }

  /** `derive_node_dna_key_v1`. */
  function Derive<P(==)>(s: Suite<P>, scan: Key, dna: seq<nat>, randomness: seq<nat>): Option<NodeKey>
    requires |randomness| == 128
  {
    match s.decompress(scan)
    case None => None
    case Some(scanPoint) =>
      var r := Wide(randomness[..64]);
      var shared := s.compress(Mul(s.g, scanPoint, r));
      var tweak := Tweak(s, dna, shared);
      var oneTimePoint := Mul(s.g, scanPoint, tweak);
      var nonce := Wide(randomness[64..]);
      if scanPoint == s.g.zero || r == 0 || tweak == 0 || oneTimePoint == s.g.zero || nonce == 0 then None
      else
        var ephemeral, oneTime := s.compress(Mul(s.g, s.H, r)), s.compress(oneTimePoint);
        var gc, sc := s.compress(Mul(s.g, s.H, nonce)), s.compress(Mul(s.g, scanPoint, nonce));
        var challenge := Challenge(s, scan, dna, ephemeral, oneTime, shared, gc, sc);
        Some(NodeKey(ephemeral, oneTime, Proof(shared, gc, sc, LeBytes(Response(nonce, challenge, r), 32))))
  }

  /** `verify_node_dna_key_proof_v1` on the host. */
  predicate Verify<P(==)>(s: Suite<P>, scan: Key, dna: seq<nat>, ephemeral: Key, oneTime: Key, proof: Proof) {
    match (s.decompress(scan), s.decompress(ephemeral), s.decompress(oneTime), s.decompress(proof.shared),
           s.decompress(proof.generatorCommitment), s.decompress(proof.scanCommitment), Scalar(proof.response))
    case (Some(p), Some(e), Some(o), Some(sh), Some(gc), Some(sc), Some(z)) =>
      var zero := s.g.zero;
      var challenge := Challenge(s, scan, dna, ephemeral, oneTime, proof.shared, proof.generatorCommitment, proof.scanCommitment);
      var tweak := Tweak(s, dna, s.compress(sh));
      && p != zero && e != zero && o != zero && sh != zero && gc != zero && sc != zero
      && Accepting(s.g, s.H, p, e, sh, gc, sc, challenge, z)
      && tweak != 0 && Mul(s.g, p, tweak) == o
    case _ => false
  }

  // ------------------------------------------------------------ on-chain verifier

  /** ristretto255 decoding accepts canonical encodings only, and the identity is 32 zero bytes
      (sections 4.3.1 and 4.3.2 of RFC 9496). */
  ghost predicate CanonicalCodec<P(!new)>(s: Suite<P>) {
    && s.compress(s.g.zero) == LeBytes(0, 32)
    && (forall k :: s.decompress(k).Some? ==> s.compress(s.decompress(k).value) == k)
  }

  /** `valid_point`: a decodable encoding other than the identity. */
  predicate ValidPoint<P>(s: Suite<P>, k: Key) {
    k != LeBytes(0, 32) && s.decompress(k).Some?
  }

  /** `multiply`: the syscall on two encodings, behind its two checks. */
  function MultiplyOnChain<P>(s: Suite<P>, scalar: Key, point: Key): Option<Key> {
    if Scalar(scalar).None? || !ValidPoint(s, point) then None
    else Some(s.compress(Mul(s.g, s.decompress(point).value, Scalar(scalar).value)))
  }

  /** `add`: both operands must pass `valid_point`. */
  function AddOnChain<P>(s: Suite<P>, left: Key, right: Key): Option<Key> {
    if !ValidPoint(s, left) || !ValidPoint(s, right) then None
    else Some(s.compress(s.g.add(s.decompress(left).value, s.decompress(right).value)))
  }

  /** One equation of the on-chain verifier; a refused operand refuses the proof. */
  predicate EquationOnChain<P>(s: Suite<P>, response: Key, base: Key, commitment: Key, challenge: Key, image: Key) {
    match (MultiplyOnChain(s, response, base), MultiplyOnChain(s, challenge, image))
    case (Some(left), Some(term)) => AddOnChain(s, commitment, term) == Some(left)
    case _ => false
  }

  /** `verify_node_dna_key_proof_v1` as compiled for the chain, on encodings throughout. */
  predicate VerifyOnChain<P>(s: Suite<P>, scan: Key, dna: seq<nat>, ephemeral: Key, oneTime: Key, proof: Proof) {
    var challenge := LeBytes(Challenge(s, scan, dna, ephemeral, oneTime, proof.shared, proof.generatorCommitment, proof.scanCommitment), 32);
    var tweak := LeBytes(Tweak(s, dna, proof.shared), 32);
    && ValidPoint(s, scan) && ValidPoint(s, ephemeral) && ValidPoint(s, oneTime) && ValidPoint(s, proof.shared)
    && ValidPoint(s, proof.generatorCommitment) && ValidPoint(s, proof.scanCommitment) && Scalar(proof.response).Some?
    && EquationOnChain(s, proof.response, s.compress(s.H), proof.generatorCommitment, challenge, ephemeral)
    && EquationOnChain(s, proof.response, scan, proof.scanCommitment, challenge, proof.shared)
    && tweak != LeBytes(0, 32) && MultiplyOnChain(s, tweak, scan) == Some(oneTime)
  }

  /** `derive_owner_dna_key_v1`. */
  function OwnerDerive<P(==)>(s: Suite<P>, secretKey: Key, ephemeral: Key, dna: seq<nat>): Option<OwnerKey> {
    match (Scalar(secretKey), s.decompress(ephemeral))
    case (Some(secret), Some(e)) =>
      if secret == 0 || e == s.g.zero then None
      else
        var tweak := Tweak(s, dna, s.compress(Mul(s.g, e, s.invert(secret))));
        if tweak == 0 then None
        else
          var oneTimeSecret := OneTimeSecret(s, secret, tweak);
          if oneTimeSecret == 0 then None
          else Some(OwnerKey(oneTimeSecret, s.compress(Mul(s.g, s.H, s.invert(oneTimeSecret)))))
    case _ => None
  }

  // ------------------------------------------------------------------ completeness

  /** (nonce + c·r)·p == nonce·p + c·(r·p). */
  lemma {:induction false} ResponseOpens<P(!new)>(s: Suite<P>, p: P, nonce: nat, c: nat, r: nat)
    requires ValidSuite(s) && s.g.has(p)
    ensures Mul(s.g, p, Response(nonce, c, r)) == s.g.add(Mul(s.g, p, nonce), Mul(s.g, Mul(s.g, p, r), c))
  {
    hide Mul, ValidSuite, Abelian, Modulo, Times;
    SuiteGroup(s);
    MulModOrder(s, p, nonce + Times(c, r));
    MulOfSum(s.g, p, nonce, Times(c, r));
    MulTwice(s, p, c, r);
  }

  lemma {:induction false} HonestAccepts<P(!new)>(s: Suite<P>, p: P, nonce: nat, c: nat, r: nat)
    requires ValidSuite(s) && s.g.has(p)
    ensures Accepting(s.g, s.H, p, Mul(s.g, s.H, r), Mul(s.g, p, r), Mul(s.g, s.H, nonce), Mul(s.g, p, nonce), c,
                      Response(nonce, c, r))
  {
    hide Mul, ValidSuite, Abelian, Response;
    SuiteGroup(s);
    ResponseOpens(s, s.H, nonce, c, r);
    ResponseOpens(s, p, nonce, c, r);
  }

  /** Every key the Node derives is accepted by the public verifier. */
  lemma DerivedIsAccepted<P(!new)>(s: Suite<P>, scan: Key, dna: seq<nat>, randomness: seq<nat>)
    requires ValidSuite(s) && |randomness| == 128
    requires Derive(s, scan, dna, randomness).Some?
    ensures var k := Derive(s, scan, dna, randomness).value; Verify(s, scan, dna, k.ephemeral, k.oneTime, k.proof)
  {
    hide Mul, Wide, Challenge, Tweak, Scalar, LeBytes, ValidSuite, Abelian, Accepting, Response;
    SuiteGroup(s);
    KeyInGroup(s, scan);
    var k := Derive(s, scan, dna, randomness).value;
    var p := s.decompress(scan).value;
    var r, nonce := Wide(randomness[..64]), Wide(randomness[64..]);
    var c := Challenge(s, scan, dna, k.ephemeral, k.oneTime, k.proof.shared, k.proof.generatorCommitment, k.proof.scanCommitment);
    NonzeroStays(s, s.H, r);
    NonzeroStays(s, p, r);
    NonzeroStays(s, s.H, nonce);
    NonzeroStays(s, p, nonce);
    MulInGroup(s.g, s.H, r);
    MulInGroup(s.g, p, r);
    MulInGroup(s.g, s.H, nonce);
    MulInGroup(s.g, p, nonce);
    MulInGroup(s.g, p, Tweak(s, dna, k.proof.shared));
    HonestAccepts(s, p, nonce, c, r);
    ScalarRoundTrip(Response(nonce, c, r));
    KeyRoundTrip(s, Mul(s.g, s.H, r));
    KeyRoundTrip(s, Mul(s.g, p, r));
    KeyRoundTrip(s, Mul(s.g, s.H, nonce));
    KeyRoundTrip(s, Mul(s.g, p, nonce));
    KeyRoundTrip(s, Mul(s.g, p, Tweak(s, dna, k.proof.shared)));
  }

  // ------------------------------------------------------- host and chain agree

  /** On encodings, `valid_point` is "decodes to a point other than the identity". */
  lemma ValidPointIff<P(!new)>(s: Suite<P>, k: Key)
    requires ValidSuite(s) && CanonicalCodec(s)
    ensures ValidPoint(s, k) <==> s.decompress(k).Some? && s.decompress(k).value != s.g.zero
  {
    hide Mul;
    ZeroInGroup(s);
    KeyRoundTrip(s, s.g.zero);
  }

  lemma ZeroInGroup<P(!new)>(s: Suite<P>)
    requires ValidSuite(s)
    ensures s.g.has(s.g.zero)
  {
    hide Mul;
  }

  lemma CompressInjective<P(!new)>(s: Suite<P>, p: P, q: P)
    requires ValidSuite(s) && s.g.has(p) && s.g.has(q)
    ensures s.compress(p) == s.compress(q) <==> p == q
  {
    hide Mul, ValidSuite;
    KeyRoundTrip(s, p);
    KeyRoundTrip(s, q);
  }

  lemma CanonicalKey<P(!new)>(s: Suite<P>, k: Key)
    requires CanonicalCodec(s) && s.decompress(k).Some?
    ensures s.compress(s.decompress(k).value) == k
  {
  }

  /** Checked multiplication by a scalar below the order. */
  lemma MultipliesOnChain<P(!new)>(s: Suite<P>, scalar: Key, k: Key)
    requires ValidSuite(s) && ValidPoint(s, k) && Scalar(scalar).Some?
    ensures var p, n := s.decompress(k).value, Scalar(scalar).value;
      s.g.has(Mul(s.g, p, n)) && MultiplyOnChain(s, scalar, k) == Some(s.compress(Mul(s.g, p, n)))
  {
    hide Mul, ValidSuite, Abelian, Scalar;
    SuiteGroup(s);
    KeyInGroup(s, k);
    MulInGroup(s.g, s.decompress(k).value, Scalar(scalar).value);
  }

  /** Multiplying a non-identity point gives the identity for the zero scalar only. */
  lemma {:induction false} NonzeroIff<P(!new)>(s: Suite<P>, p: P, n: nat)
    requires ValidSuite(s) && s.g.has(p) && p != s.g.zero && n < ORDER
    ensures Mul(s.g, p, n) == s.g.zero <==> n == 0
  {
    hide Mul, ValidSuite;
    if n == 0 {
      MulByZero(s.g, p);
    } else {
      NonzeroStays(s, p, n);
    }
  }

  /** One on-chain equation is the group equation, unless the challenge is zero: then the second operand
      of the addition is the identity, which `add` refuses. */
  lemma EquationOnChainIff<P(!new)>(s: Suite<P>, response: Key, base: Key, commitment: Key, challenge: Key, image: Key)
    requires ValidSuite(s) && CanonicalCodec(s) && Scalar(response).Some? && Scalar(challenge).Some?
    requires ValidPoint(s, base) && ValidPoint(s, commitment) && ValidPoint(s, image)
    ensures var z, c := Scalar(response).value, Scalar(challenge).value;
      var b, g, i := s.decompress(base).value, s.decompress(commitment).value, s.decompress(image).value;
      EquationOnChain(s, response, base, commitment, challenge, image) <==> (c != 0 && Mul(s.g, b, z) == s.g.add(g, Mul(s.g, i, c)))
  {
    hide Mul, ValidSuite, Abelian, Scalar, CanonicalCodec, ValidPoint, MultiplyOnChain;
    SuiteGroup(s);
    ValidPointIff(s, base);
    ValidPointIff(s, commitment);
    ValidPointIff(s, image);
    var z, c := Scalar(response).value, Scalar(challenge).value;
    var b, g, i := s.decompress(base).value, s.decompress(commitment).value, s.decompress(image).value;
    KeyInGroup(s, commitment);
    KeyInGroup(s, image);
    ScalarBelowOrder(challenge);
    MultipliesOnChain(s, response, base);
    MultipliesOnChain(s, challenge, image);
    NonzeroIff(s, i, c);
    var term := Mul(s.g, i, c);
    KeyRoundTrip(s, term);
    ValidPointIff(s, s.compress(term));
    AddLaws(s.g, g, term);
    CompressInjective(s, Mul(s.g, b, z), s.g.add(g, term));
  }

  lemma ScalarBelowOrder(b: Key)
    requires Scalar(b).Some?
    ensures Scalar(b).value < ORDER
  {
  }

  lemma {:induction false} HashScalars<P>(s: Suite<P>, n: nat)
    requires n < ORDER
    ensures Scalar(LeBytes(n, 32)) == Some(n) && (LeBytes(n, 32) == LeBytes(0, 32) <==> n == 0)
  {
    ScalarRoundTrip(n);
    ScalarRoundTrip(0);
  }

  /** The verifier that runs on chain accepts what the host verifier accepts, except every proof whose
      challenge reduces to zero. */
  lemma OnChainIff<P(!new)>(s: Suite<P>, scan: Key, dna: seq<nat>, ephemeral: Key, oneTime: Key, proof: Proof)
    requires ValidSuite(s) && CanonicalCodec(s)
    ensures var c := Challenge(s, scan, dna, ephemeral, oneTime, proof.shared, proof.generatorCommitment, proof.scanCommitment);
      VerifyOnChain(s, scan, dna, ephemeral, oneTime, proof) <==> (Verify(s, scan, dna, ephemeral, oneTime, proof) && c != 0)
  {
    hide Mul, ValidSuite, Abelian, Scalar, CanonicalCodec, ValidPoint, EquationOnChain, MultiplyOnChain, Challenge, Tweak, LeBytes;
    SuiteGroup(s);
    ValidPointIff(s, scan);
    ValidPointIff(s, ephemeral);
    ValidPointIff(s, oneTime);
    ValidPointIff(s, proof.shared);
    ValidPointIff(s, proof.generatorCommitment);
    ValidPointIff(s, proof.scanCommitment);
    if ValidPoint(s, scan) && ValidPoint(s, ephemeral) && ValidPoint(s, oneTime) && ValidPoint(s, proof.shared)
      && ValidPoint(s, proof.generatorCommitment) && ValidPoint(s, proof.scanCommitment) && Scalar(proof.response).Some? {
      var c := Challenge(s, scan, dna, ephemeral, oneTime, proof.shared, proof.generatorCommitment, proof.scanCommitment);
      var tweak := Tweak(s, dna, proof.shared);
      HashBelowOrder(s, scan, dna, ephemeral, oneTime, proof);
      HashScalars(s, c);
      HashScalars(s, tweak);
      CanonicalKey(s, proof.shared);
      CanonicalKey(s, oneTime);
      KeyRoundTrip(s, s.H);
      ValidPointIff(s, s.compress(s.H));
      EquationOnChainIff(s, proof.response, s.compress(s.H), proof.generatorCommitment, LeBytes(c, 32), ephemeral);
      EquationOnChainIff(s, proof.response, scan, proof.scanCommitment, LeBytes(c, 32), proof.shared);
      MultipliesOnChain(s, LeBytes(tweak, 32), scan);
      KeyInGroup(s, oneTime);
      CompressInjective(s, Mul(s.g, s.decompress(scan).value, tweak), s.decompress(oneTime).value);
    }
  }

  lemma HashBelowOrder<P>(s: Suite<P>, scan: Key, dna: seq<nat>, ephemeral: Key, oneTime: Key, proof: Proof)
    ensures Challenge(s, scan, dna, ephemeral, oneTime, proof.shared, proof.generatorCommitment, proof.scanCommitment) < ORDER
    ensures Tweak(s, dna, proof.shared) < ORDER
  {
  }

  /** A derived key is accepted on chain exactly when its challenge is not zero; derivation does not test this. */
  lemma DerivedOnChainIff<P(!new)>(s: Suite<P>, scan: Key, dna: seq<nat>, randomness: seq<nat>)
    requires ValidSuite(s) && CanonicalCodec(s) && |randomness| == 128
    requires Derive(s, scan, dna, randomness).Some?
    ensures var k := Derive(s, scan, dna, randomness).value;
      VerifyOnChain(s, scan, dna, k.ephemeral, k.oneTime, k.proof) <==>
        Challenge(s, scan, dna, k.ephemeral, k.oneTime, k.proof.shared, k.proof.generatorCommitment, k.proof.scanCommitment) != 0
  {
    hide Mul, ValidSuite, CanonicalCodec, Challenge, Verify, VerifyOnChain, Derive;
    var k := Derive(s, scan, dna, randomness).value;
    DerivedIsAccepted(s, scan, dna, randomness);
    OnChainIff(s, scan, dna, k.ephemeral, k.oneTime, k.proof);
  }

  /** Addition modulo the order. */
  function AddModulo(a: int, b: int): int {
    (a + b) % ORDER
  }

  /** The integers modulo the order, with a hash that sends long transcripts to zero and others to one. */
  function Small(inv: nat -> nat): Suite<int> {
    Suite(Group((p: int) => 0 <= p < ORDER, 0, (a: int, b: int) => AddModulo(a, b)), 1,
          (p: int) => LeBytes(p % ORDER, 32), (k: Key) => Scalar(k), (m: seq<nat>) => SmallHash(m), inv)
  }

  function SmallHash(m: seq<nat>): seq<nat> {
    LeBytes(if |m| > 200 then 0 else 1, 64)
  }

  /** A modular inverse; there is one, because the order is prime. */
  ghost predicate Inverts(inv: nat -> nat) {
    forall t :: 0 < t < ORDER ==> Modulo(Times(t, inv(t))) == 1
  }

  const ONES := LeBytes(1, 64) + LeBytes(1, 64)

  const ONE_KEY := LeBytes(1, 32)

  /** In a valid suite, a derived key that the host verifier accepts and the on-chain verifier refuses. */
  lemma ZeroChallengeRefused(inv: nat -> nat)
    requires Inverts(inv)
    ensures ValidSuite(Small(inv)) && CanonicalCodec(Small(inv))
    ensures Derive(Small(inv), ONE_KEY, [], ONES).Some?
    ensures var k := Derive(Small(inv), ONE_KEY, [], ONES).value;
      && Verify(Small(inv), ONE_KEY, [], k.ephemeral, k.oneTime, k.proof)
      && !VerifyOnChain(Small(inv), ONE_KEY, [], k.ephemeral, k.oneTime, k.proof)
  {
    hide ValidSuite, CanonicalCodec, Mul, LeBytes, Wide, Scalar, Challenge, Tweak, Response, Inverts;
    SmallIsValid(inv);
    SmallIsCanonical(inv);
    SmallKeys(inv);
    SmallProducts(inv);
    OneByOne();
    SmallHashes(inv, ONE_KEY);
    var s, one := Small(inv), ONE_KEY;
    assert Derive(s, one, [], ONES) == Some(NodeKey(one, one, Proof(one, one, one, one)));
    assert Verify(s, one, [], one, one, Proof(one, one, one, one));
    ZeroChallengeEquation(s, one, s.compress(s.H), one, one);
  }

  lemma AddModuloIs(a: int, b: int)
    requires 0 <= a < ORDER && 0 <= b < ORDER
    ensures AddModulo(a, b) == if a + b < ORDER then a + b else a + b - ORDER
  {
  }

  lemma AddModuloLaws(a: int, b: int, c: int)
    requires 0 <= a < ORDER && 0 <= b < ORDER && 0 <= c < ORDER
    ensures 0 <= AddModulo(a, b) < ORDER && AddModulo(a, b) == AddModulo(b, a) && AddModulo(0, a) == a
    ensures AddModulo(AddModulo(a, b), c) == AddModulo(a, AddModulo(b, c))
  {
    hide AddModulo;
    AddModuloIs(a, b);
    AddModuloIs(b, a);
    AddModuloIs(0, a);
    AddModuloIs(b, c);
    AddModuloIs(AddModulo(a, b), c);
    AddModuloIs(a, AddModulo(b, c));
  }

  lemma SmallIsAbelian(inv: nat -> nat)
    ensures Abelian(Small(inv).g)
  {
    hide AddModulo;
    var g := Small(inv).g;
    AddModuloLaws(0, 0, 0);
    forall p, q, r | g.has(p) && g.has(q) && g.has(r)
      ensures g.add(g.zero, p) == p && g.has(g.add(p, q)) && g.add(p, q) == g.add(q, p)
      ensures g.add(g.add(p, q), r) == g.add(p, g.add(q, r))
    {
      AddModuloLaws(p, q, r);
    }
  }

  lemma TimesNext(n: nat, p: nat)
    ensures Times(n + 1, p) == Times(n, p) + p && Times(0, p) == 0
  {
  }

  lemma ModuloAdds(x: nat, p: nat)
    requires p < ORDER
    ensures AddModulo(Modulo(x), p) == Modulo(x + p)
  {
    var q, r := x / ORDER, x % ORDER;
    AddModuloIs(r, p);
    if r + p < ORDER {
      ModUnique(x + p, ORDER, q, r + p);
    } else {
      ModUnique(x + p, ORDER, q + 1, r + p - ORDER);
    }
  }

  /** Repeated addition is multiplication modulo the order. */
  lemma {:induction false} SmallMul(inv: nat -> nat, p: nat, n: nat)
    requires p < ORDER
    ensures Mul(Small(inv).g, p, n) == Modulo(Times(n, p))
  {
    hide Modulo, Times, AddModulo, Mul;
    if n == 0 {
      MulByZero(Small(inv).g, p);
      TimesNext(0, p);
      ModuloOfZero();
    } else {
      SmallMul(inv, p, n - 1);
      MulOfNext(Small(inv).g, p, n - 1);
      TimesNext(n - 1, p);
      ModuloAdds(Times(n - 1, p), p);
    }
  }

  lemma ModuloOfZero()
    ensures Modulo(0) == 0
  {
  }

  lemma OrderVanishes(p: nat)
    ensures Modulo(Times(ORDER, p)) == 0
  {
    ModUnique(Times(ORDER, p), ORDER, p, 0);
  }

  lemma SmallIsValid(inv: nat -> nat)
    requires Inverts(inv)
    ensures ValidSuite(Small(inv))
  {
    hide Mul, LeBytes, Scalar, Abelian, Modulo, Times;
    var s := Small(inv);
    SmallIsAbelian(inv);
    forall p | s.g.has(p) ensures s.decompress(s.compress(p)) == Some(p) && Mul(s.g, p, ORDER) == s.g.zero {
      ScalarRoundTrip(p);
      SmallMul(inv, p, ORDER);
      OrderVanishes(p);
    }
    forall k: Key | s.decompress(k).Some? ensures s.g.has(s.decompress(k).value) {
      ScalarBelowOrder(k);
    }
  }

  lemma SmallIsCanonical(inv: nat -> nat)
    ensures CanonicalCodec(Small(inv))
  {
    hide LeBytes;
    var s := Small(inv);
    forall k: Key | s.decompress(k).Some? ensures s.compress(s.decompress(k).value) == k {
      ScalarBelowOrder(k);
      LeBytesOfValue(k);
    }
  }

  /** With the zero challenge the second operand of `add` is the identity. */
  lemma ZeroChallengeEquation<P>(s: Suite<P>, response: Key, base: Key, commitment: Key, image: Key)
    requires s.compress(s.g.zero) == LeBytes(0, 32) && ValidPoint(s, image)
    ensures !EquationOnChain(s, response, base, commitment, LeBytes(0, 32), image)
  {
    hide Mul, LeBytes, Scalar;
    HashScalars(s, 0);
    MulByZero(s.g, s.decompress(image).value);
  }

  lemma SmallKeys(inv: nat -> nat)
    ensures Scalar(ONE_KEY) == Some(1) && Scalar(LeBytes(0, 32)) == Some(0)
    ensures Small(inv).compress(1) == ONE_KEY && Small(inv).compress(0) == LeBytes(0, 32) != ONE_KEY
    ensures Small(inv).decompress(ONE_KEY) == Some(1)
  {
    hide LeBytes, Scalar;
    HashScalars(Small(inv), 1);
    HashScalars(Small(inv), 0);
  }

  lemma SmallProducts(inv: nat -> nat)
    ensures var g := Small(inv).g; Mul(g, 1, 1) == 1 && Mul(g, 1, 0) == 0 && g.add(1, 0) == 1
    ensures Response(1, 0, 1) == 1
  {
    hide Mul;
    MulByZero(Small(inv).g, 1);
    MulOfNext(Small(inv).g, 1, 0);
  }

  lemma OneByOne()
    ensures ONES[..64] == ONES[64..] == LeBytes(1, 64) && Wide(LeBytes(1, 64)) == 1 && Wide(LeBytes(0, 64)) == 0
  {
    hide LeBytes, Le, Pow256;
    PowersGrow(64);
    LeBytesValue(1, 64);
    LeBytesValue(0, 64);
  }

  lemma {:induction false} PowersGrow(n: nat)
    requires n > 0
    ensures Pow256(n) > 1
  {
    if n > 1 {
      PowersGrow(n - 1);
    }
  }

  lemma {:induction false} AsciiSize(text: string)
    ensures |Ascii(text)| == |text|
  {
    if text != "" {
      AsciiSize(text[..|text| - 1]);
    }
  }

  lemma SmallHashes(inv: nat -> nat, k: Key)
    requires |k| == 32
    ensures Challenge(Small(inv), k, [], k, k, k, k, k) == Wide(LeBytes(0, 64)) && Tweak(Small(inv), [], k) == Wide(LeBytes(1, 64))
  {
    hide Ascii, LeBytes, Wide;
    AsciiSize("TSN_GPRU_DNA_ELGAMAL_TWEAK_V1");
    AsciiSize("TSN_GPRU_DNA_ELGAMAL_DLEQ_PROOF_V1");
  }

  // ---------------------------------------------------------------- owner recovery

  /** The published parts of a derived key, in terms of its two scalars. */
  lemma DerivedFields<P(!new)>(s: Suite<P>, scan: Key, p: P, dna: seq<nat>, randomness: seq<nat>)
    requires s.decompress(scan) == Some(p) && |randomness| == 128 && Derive(s, scan, dna, randomness).Some?
    ensures var k := Derive(s, scan, dna, randomness).value; var r := Wide(randomness[..64]);
      var shared := s.compress(Mul(s.g, p, r));
      && r != 0 && k.ephemeral == s.compress(Mul(s.g, s.H, r))
      && Tweak(s, dna, shared) != 0 && k.oneTime == s.compress(Mul(s.g, p, Tweak(s, dna, shared)))
  {
    hide Mul, Wide, Tweak, LeBytes, Challenge, Response;
  }

  /** The owner's steps on an ephemeral point whose shared point is `shared`. */
  lemma {:induction false} OwnerSteps<P(!new)>(s: Suite<P>, secret: nat, e: P, dna: seq<nat>, shared: P)
    requires ValidSuite(s) && 0 < secret < ORDER && s.g.has(e) && e != s.g.zero
    requires Mul(s.g, e, s.invert(secret)) == shared && Tweak(s, dna, s.compress(shared)) != 0
    ensures var owner := OwnerDerive(s, LeBytes(secret, 32), s.compress(e), dna);
      owner.Some? && owner.value.oneTime == s.compress(Mul(s.g, Mul(s.g, s.H, s.invert(secret)), Tweak(s, dna, s.compress(shared))))
  {
    ScalarRoundTrip(secret);
    KeyRoundTrip(s, e);
    TweakBelowOrder(s, dna, s.compress(shared));
    OneTimeSecretOpens(s, secret, Tweak(s, dna, s.compress(shared)));
    hide Mul, Tweak, Scalar, LeBytes, ValidSuite, OneTimeSecret;
  }

  lemma TweakBelowOrder<P(!new)>(s: Suite<P>, dna: seq<nat>, shared: Key)
    ensures Tweak(s, dna, shared) < ORDER
  {
  }

  /** The owner, who knows `secret` behind the scan key secret^-1·H, recovers the same one-time public key. */
  lemma {:induction false} OwnerRecoversOneTimeKey<P(!new)>(s: Suite<P>, secret: nat, dna: seq<nat>, randomness: seq<nat>)
    requires ValidSuite(s) && 0 < secret < ORDER && |randomness| == 128
    requires Derive(s, s.compress(Mul(s.g, s.H, s.invert(secret))), dna, randomness).Some?
    ensures var k := Derive(s, s.compress(Mul(s.g, s.H, s.invert(secret))), dna, randomness).value;
      var owner := OwnerDerive(s, LeBytes(secret, 32), k.ephemeral, dna);
      owner.Some? && owner.value.oneTime == k.oneTime
  {
    hide Mul, Wide, Tweak, LeBytes, ValidSuite, Abelian, Derive, OwnerDerive, Times;
    SuiteGroup(s);
    var p := Mul(s.g, s.H, s.invert(secret));
    MulInGroup(s.g, s.H, s.invert(secret));
    KeyRoundTrip(s, p);
    DerivedFields(s, s.compress(p), p, dna, randomness);
    var r := Wide(randomness[..64]);
    MulInGroup(s.g, s.H, r);
    NonzeroStays(s, s.H, r);
    MulTwice(s, s.H, r, s.invert(secret));
    OwnerSteps(s, secret, Mul(s.g, s.H, r), dna, Mul(s.g, p, r));
  }

  /** With o = secret/tweak, o is non-zero and o^-1·H == tweak·(secret^-1·H). */
  lemma {:induction false} OneTimeSecretOpens<P(!new)>(s: Suite<P>, secret: nat, tweak: nat)
    requires ValidSuite(s) && 0 < secret < ORDER && 0 < tweak < ORDER
    ensures OneTimeSecret(s, secret, tweak) != 0
    ensures Mul(s.g, s.H, s.invert(OneTimeSecret(s, secret, tweak)))
         == Mul(s.g, Mul(s.g, s.H, s.invert(secret)), tweak)
  {
    hide Mul, ValidSuite, Abelian, Modulo, Times;
    SuiteGroup(s);
    var p := Mul(s.g, s.H, s.invert(secret));
    MulInGroup(s.g, s.H, s.invert(secret));
    var x := Mul(s.g, p, tweak);
    MulInGroup(s.g, p, tweak);
    var o := OneTimeSecret(s, secret, tweak);
    MulModOrder(s, x, Times(secret, s.invert(tweak)));
    MulTwice(s, x, s.invert(tweak), secret);
    InverseUndoes(s, p, tweak);
    InverseUndoes(s, s.H, secret);
    assert Mul(s.g, x, o) == s.H;
    if o == 0 {
      MulByZero(s.g, x);
    } else {
      InverseUndoes(s, x, o);
    }
  }

  lemma {:induction false} MulByZero<P>(g: Group<P>, p: P)
    ensures Mul(g, p, 0) == g.zero
  {
  }

  // -------------------------------------------------------------- what is bound

  /** A hash that sends one transcript to one and every other to zero. */
  function Marking(m: seq<nat>): seq<nat> -> seq<nat> {
    (x: seq<nat>) => LeBytes(if x == m then 1 else 0, 64)
  }

  lemma MarkingSeparates(m: seq<nat>, m': seq<nat>)
    requires m != m'
    ensures Wide(Marking(m)(m)) == 1 && Wide(Marking(m)(m')) == 0
  {
    hide LeBytes, Wide;
    OneByOne();
  }

  lemma TweakInjective(dna: seq<nat>, shared: Key, dna': seq<nat>, shared': Key)
    requires |shared| == |shared'| && TWEAK_DOMAIN + dna + shared == TWEAK_DOMAIN + dna' + shared'
    ensures dna == dna' && shared == shared'
  {
    hide Ascii;
    AppendInjective(TWEAK_DOMAIN + dna, shared, TWEAK_DOMAIN + dna', shared');
    assert (TWEAK_DOMAIN + dna)[|TWEAK_DOMAIN|..] == dna && (TWEAK_DOMAIN + dna')[|TWEAK_DOMAIN|..] == dna';
  }

  /** The tweak depends on the whole DNA and on the shared point: two different pairs have different tweaks under
      some hash. */
  lemma TweakBinds<P>(s: Suite<P>, dna: seq<nat>, shared: Key, dna': seq<nat>, shared': Key)
    requires |shared| == |shared'| == 32 && (dna != dna' || shared != shared')
    ensures exists h :: Tweak(s.(sha3 := h), dna, shared) != Tweak(s.(sha3 := h), dna', shared')
  {
    hide LeBytes, Wide, Ascii;
    var m, m' := TWEAK_DOMAIN + dna + shared, TWEAK_DOMAIN + dna' + shared';
    if m == m' {
      TweakInjective(dna, shared, dna', shared');
    } else {
      MarkingSeparates(m, m');
      assert Tweak(s.(sha3 := Marking(m)), dna, shared) != Tweak(s.(sha3 := Marking(m)), dna', shared');
    }
  }

  /** What a proof is about, as hashed into its challenge. */
  datatype Transcript = Transcript(dna: seq<nat>, scan: Key, ephemeral: Key, oneTime: Key, shared: Key, gc: Key, sc: Key)

  predicate KeySizes(t: Transcript) {
    |t.scan| == 32 && |t.ephemeral| == 32 && |t.oneTime| == 32 && |t.shared| == 32 && |t.gc| == 32 && |t.sc| == 32
  }

  function ChallengeOf<P>(s: Suite<P>, t: Transcript): nat {
    Challenge(s, t.scan, t.dna, t.ephemeral, t.oneTime, t.shared, t.gc, t.sc)
  }

  function TranscriptBytes(t: Transcript): seq<nat> {
    PROOF_DOMAIN + t.dna + t.scan + t.ephemeral + t.oneTime + t.shared + t.gc + t.sc
  }

  lemma TranscriptInjective(t: Transcript, u: Transcript)
    requires KeySizes(t) && KeySizes(u) && TranscriptBytes(t) == TranscriptBytes(u)
    ensures t == u
  {
    hide Ascii;
    var d := PROOF_DOMAIN;
    AppendInjective(d + t.dna + t.scan + t.ephemeral + t.oneTime + t.shared + t.gc, t.sc,
              d + u.dna + u.scan + u.ephemeral + u.oneTime + u.shared + u.gc, u.sc);
    AppendInjective(d + t.dna + t.scan + t.ephemeral + t.oneTime + t.shared, t.gc, d + u.dna + u.scan + u.ephemeral + u.oneTime + u.shared, u.gc);
    AppendInjective(d + t.dna + t.scan + t.ephemeral + t.oneTime, t.shared, d + u.dna + u.scan + u.ephemeral + u.oneTime, u.shared);
    AppendInjective(d + t.dna + t.scan + t.ephemeral, t.oneTime, d + u.dna + u.scan + u.ephemeral, u.oneTime);
    AppendInjective(d + t.dna + t.scan, t.ephemeral, d + u.dna + u.scan, u.ephemeral);
    AppendInjective(d + t.dna, t.scan, d + u.dna, u.scan);
    assert (d + t.dna)[|d|..] == t.dna && (d + u.dna)[|d|..] == u.dna;
  }

  /** The challenge depends on every part of the transcript. */
  lemma ChallengeBinds<P>(s: Suite<P>, t: Transcript, u: Transcript)
    requires KeySizes(t) && KeySizes(u) && t != u
    ensures exists h :: ChallengeOf(s.(sha3 := h), t) != ChallengeOf(s.(sha3 := h), u)
  {
    hide LeBytes, Wide, Ascii, KeySizes;
    var m, m' := TranscriptBytes(t), TranscriptBytes(u);
    if m == m' {
      TranscriptInjective(t, u);
    } else {
      MarkingSeparates(m, m');
      assert ChallengeOf(s.(sha3 := Marking(m)), t) != ChallengeOf(s.(sha3 := Marking(m)), u);
    }
  }

  /** An accepted key is the tweak of its DNA and shared point times the scan key, and none of its points is the identity. */
  lemma AcceptedKeyIs<P(!new)>(s: Suite<P>, scan: Key, dna: seq<nat>, ephemeral: Key, oneTime: Key, proof: Proof)
    requires ValidSuite(s) && CanonicalCodec(s) && Verify(s, scan, dna, ephemeral, oneTime, proof)
    ensures s.decompress(scan).Some? && oneTime == s.compress(Mul(s.g, s.decompress(scan).value, Tweak(s, dna, proof.shared)))
    ensures forall k | k in {scan, ephemeral, oneTime, proof.shared, proof.generatorCommitment, proof.scanCommitment} ::
      s.decompress(k).Some? && s.decompress(k).value != s.g.zero
  {
    hide Mul, ValidSuite, CanonicalCodec, Tweak, Challenge, Scalar, Accepting;
    CanonicalKey(s, oneTime);
    CanonicalKey(s, proof.shared);
  }

  /** The owner recovers every accepted key whose two relations hold for one scalar, not only derived ones. */
  lemma {:induction false} OwnerRecoversAccepted<P(!new)>(s: Suite<P>, secret: nat, dna: seq<nat>, ephemeral: Key, oneTime: Key, proof: Proof, r: nat)
    requires ValidSuite(s) && CanonicalCodec(s) && 0 < secret < ORDER
    requires Verify(s, s.compress(Mul(s.g, s.H, s.invert(secret))), dna, ephemeral, oneTime, proof)
    requires s.decompress(ephemeral) == Some(Mul(s.g, s.H, r))
    requires s.decompress(proof.shared) == Some(Mul(s.g, Mul(s.g, s.H, s.invert(secret)), r))
    ensures var owner := OwnerDerive(s, LeBytes(secret, 32), ephemeral, dna); owner.Some? && owner.value.oneTime == oneTime
  {
    hide Mul, Tweak, LeBytes, ValidSuite, CanonicalCodec, Abelian, OwnerDerive, Times, Verify;
    SuiteGroup(s);
    var p := Mul(s.g, s.H, s.invert(secret));
    MulInGroup(s.g, s.H, s.invert(secret));
    KeyRoundTrip(s, p);
    AcceptedKeyIs(s, s.compress(p), dna, ephemeral, oneTime, proof);
    AcceptedTweak(s, s.compress(p), dna, ephemeral, oneTime, proof);
    CanonicalKey(s, ephemeral);
    CanonicalKey(s, proof.shared);
    MulInGroup(s.g, s.H, r);
    MulTwice(s, s.H, r, s.invert(secret));
    OwnerSteps(s, secret, Mul(s.g, s.H, r), dna, Mul(s.g, p, r));
  }

  lemma AcceptedTweak<P(!new)>(s: Suite<P>, scan: Key, dna: seq<nat>, ephemeral: Key, oneTime: Key, proof: Proof)
    requires CanonicalCodec(s) && Verify(s, scan, dna, ephemeral, oneTime, proof)
    ensures Tweak(s, dna, proof.shared) != 0 && s.decompress(ephemeral).value != s.g.zero
  {
    hide Mul, CanonicalCodec, Tweak, Challenge, Scalar, Accepting;
    CanonicalKey(s, proof.shared);
  }

  // ------------------------------------------------------------- special soundness

  lemma OneMoreOrder<P(!new)>(s: Suite<P>, p: P, z: nat)
    requires ValidSuite(s) && s.g.has(p)
    ensures Mul(s.g, p, z + ORDER) == Mul(s.g, p, z)
  {
    hide Mul, ValidSuite, Abelian, Modulo, Times;
    SuiteGroup(s);
    OrderTimes(s, p);
    MulOfSum(s.g, p, ORDER, z);
    MulInGroup(s.g, p, z);
    ZeroIsUnit(s.g, Mul(s.g, p, z));
    assert z + ORDER == ORDER + z;
  }

  lemma ResponsesDiffer<P(!new)>(g: Group<P>, image: P, commitment: P, c2: nat, d: nat)
    requires Abelian(g) && g.has(image) && g.has(commitment)
    ensures g.add(commitment, Mul(g, image, c2 + d)) == g.add(g.add(commitment, Mul(g, image, c2)), Mul(g, image, d))
  {
    hide Mul, Abelian;
    MulInGroup(g, image, c2);
    MulInGroup(g, image, d);
    MulOfSum(g, image, c2, d);
    AddAssociates(g, commitment, Mul(g, image, c2), Mul(g, image, d));
  }

  /** Two responses to the same commitment: y·base == d·image, for the differences modulo the order. */
  lemma Difference<P(!new)>(s: Suite<P>, base: P, image: P, commitment: P, c1: nat, z1: nat, c2: nat, z2: nat)
    requires ValidSuite(s) && s.g.has(base) && s.g.has(image) && s.g.has(commitment) && c2 < c1
    requires Mul(s.g, base, z1) == s.g.add(commitment, Mul(s.g, image, c1))
    requires Mul(s.g, base, z2) == s.g.add(commitment, Mul(s.g, image, c2)) && z2 < ORDER
    ensures Mul(s.g, base, Modulo(z1 + ORDER - z2)) == Mul(s.g, image, c1 - c2)
  {
    hide Mul, ValidSuite, Abelian, Modulo;
    SuiteGroup(s);
    var d, y := c1 - c2, z1 + ORDER - z2;
    ResponsesDiffer(s.g, image, commitment, c2, d);
    assert c2 + d == c1;
    MulOfSum(s.g, base, z2, y);
    assert z2 + y == z1 + ORDER;
    OneMoreOrder(s, base, z1);
    MulInGroup(s.g, image, d);
    MulInGroup(s.g, base, y);
    MulInGroup(s.g, base, z2);
    Cancel(s, Mul(s.g, base, z2), Mul(s.g, image, d), Mul(s.g, base, y));
    MulModOrder(s, base, y);
  }

  /** The witness extracted from two transcripts with larger and smaller challenge. */
  function Extracted<P>(s: Suite<P>, c1: nat, z1: nat, c2: nat, z2: nat): nat
    requires c2 < c1 && z2 < ORDER
  {
    Modulo(Times(Modulo(z1 + ORDER - z2), s.invert(c1 - c2)))
  }

  lemma {:induction false} ExtractedOpens<P(!new)>(s: Suite<P>, base: P, image: P, commitment: P, c1: nat, z1: nat, c2: nat, z2: nat)
    requires ValidSuite(s) && s.g.has(base) && s.g.has(image) && s.g.has(commitment) && c2 < c1 < ORDER
    requires Mul(s.g, base, z1) == s.g.add(commitment, Mul(s.g, image, c1))
    requires Mul(s.g, base, z2) == s.g.add(commitment, Mul(s.g, image, c2)) && z2 < ORDER
    ensures image == Mul(s.g, base, Extracted(s, c1, z1, c2, z2))
  {
    hide Mul, ValidSuite, Abelian, Modulo, Times;
    SuiteGroup(s);
    var d, y := c1 - c2, Modulo(z1 + ORDER - z2);
    Difference(s, base, image, commitment, c1, z1, c2, z2);
    InverseUndoes(s, image, d);
    MulTwice(s, base, y, s.invert(d));
    MulModOrder(s, base, Times(y, s.invert(d)));
  }

  /** Special soundness: one scalar is the discrete logarithm of both the ephemeral key and the shared point. */
  lemma SpecialSoundness<P(!new)>(s: Suite<P>, scan: P, ephemeral: P, shared: P, gc: P, sc: P, c1: nat, z1: nat, c2: nat, z2: nat)
    requires ValidSuite(s) && s.g.has(scan) && s.g.has(ephemeral) && s.g.has(shared) && s.g.has(gc) && s.g.has(sc)
    requires c1 < ORDER && c2 < ORDER && z1 < ORDER && z2 < ORDER && c1 != c2
    requires Accepting(s.g, s.H, scan, ephemeral, shared, gc, sc, c1, z1)
    requires Accepting(s.g, s.H, scan, ephemeral, shared, gc, sc, c2, z2)
    ensures exists r :: ephemeral == Mul(s.g, s.H, r) && shared == Mul(s.g, scan, r)
  {
    hide Mul, Extracted, ValidSuite, Abelian;
    SuiteGroup(s);
    if c2 < c1 {
      ExtractedOpens(s, s.H, ephemeral, gc, c1, z1, c2, z2);
      ExtractedOpens(s, scan, shared, sc, c1, z1, c2, z2);
    } else {
      ExtractedOpens(s, s.H, ephemeral, gc, c2, z2, c1, z1);
      ExtractedOpens(s, scan, shared, sc, c2, z2, c1, z1);
    }
  }
}
