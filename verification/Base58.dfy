/** The two base58 encoders (big-integer and digit-array) and the decoder. */
module Base58 {
  import opened Wrappers
  import opened WideScalar
  import opened Bn254Scalar

  const DIGITS := "123456789"
  const UPPER := "ABCDEFGH" + "JKLMN" + "PQRSTUVWXYZ"
  const LOWER := "abcdefghijk" + "mnopqrstuvwxyz"
  const ALPHABET: string := DIGITS + UPPER + LOWER

  predicate Digits58(ds: seq<nat>) {
    forall i :: 0 <= i < |ds| ==> ds[i] < 58
  }

  // -------------------------------------------------------------------- letters

  /** Character codes of the alphabet by ranges; `AlphabetByRanges` ties them to the table. */
  function Code(d: nat): (c: nat)
    requires d < 58
    ensures c < 128
  {
    if d < 9 then 49 + d
    else if d < 17 then 65 + (d - 9)
    else if d < 22 then 74 + (d - 17)
    else if d < 33 then 80 + (d - 22)
    else if d < 44 then 97 + (d - 33)
    else 109 + (d - 44)
  }

  function Letter(d: nat): char
    requires d < 58
  {
    Code(d) as char
  }

  lemma AlphabetByRanges(d: nat)
    requires d < 58
    ensures |ALPHABET| == 58 && ALPHABET[d] == Letter(d)
  {
    if d < 9 {
      assert ALPHABET[d] == DIGITS[d];
    } else if d < 33 {
      assert ALPHABET[d] == UPPER[d - 9];
    } else {
      assert ALPHABET[d] == LOWER[d - 33];
    }
  }

  /** `ALPHABET.index(c)`, or nothing. */
  function DigitOf(ch: char): (d: Option<nat>)
    ensures d.Some? ==> d.value < 58 && Letter(d.value) == ch
  {
    var c := ch as nat;
    if 49 <= c <= 57 then Some(c - 49)
    else if 65 <= c <= 72 then Some(c - 65 + 9)
    else if 74 <= c <= 78 then Some(c - 74 + 17)
    else if 80 <= c <= 90 then Some(c - 80 + 22)
    else if 97 <= c <= 107 then Some(c - 97 + 33)
    else if 109 <= c <= 122 then Some(c - 109 + 44)
    else None
  }

  lemma LetterRoundTrip(d: nat)
    requires d < 58
    ensures DigitOf(Letter(d)) == Some(d)
  {
  }

  function Letters(ds: seq<nat>): (s: string)
    requires Digits58(ds)
    ensures |s| == |ds| && forall i :: 0 <= i < |ds| ==> s[i] == Letter(ds[i])
  {
    if ds == [] then "" else Letters(ds[..|ds| - 1]) + [Letter(ds[|ds| - 1])]
  }

  // -------------------------------------------------------------------- numbers

  /** Base-58 digits of a number, most significant first; none for zero. */
  function DigitsOf(n: nat): (ds: seq<nat>)
    ensures Digits58(ds)
  {
    if n == 0 then [] else DigitsOf(n / 58) + [n % 58]
  }

  /** The number that a digit string spells, most significant first. */
  function Spelled(ds: seq<nat>): nat {
    if ds == [] then 0 else 58 * Spelled(ds[..|ds| - 1]) + ds[|ds| - 1]
  }

  /** Shortest big-endian bytes of a number; none for zero. */
  function MinBytes(n: nat): (b: seq<nat>)
    ensures Bytes(b)
  {
    if n == 0 then [] else MinBytes(n / 256) + [n % 256]
  }

  function Zeros(n: nat): (s: seq<nat>)
    ensures |s| == n && forall i :: 0 <= i < n ==> s[i] == 0
  {
    if n == 0 then [] else Zeros(n - 1) + [0]
  }

  function LeadingZeros(s: seq<nat>): (n: nat)
    ensures n <= |s| && (forall i :: 0 <= i < n ==> s[i] == 0) && (n < |s| ==> s[n] != 0)
  {
    if s == [] || s[0] != 0 then 0
    else
      var n := LeadingZeros(s[1..]);
      assert forall i :: 0 < i <= n ==> s[i] == s[1..][i - 1];
      assert n < |s[1..]| ==> s[n + 1] == s[1..][n];
      n + 1
  }

  /** What both encoders write, as digits: one for each leading zero byte, then the number. */
  function Encoded(data: seq<nat>): (ds: seq<nat>)
    requires Bytes(data)
    ensures Digits58(ds)
  {
    Zeros(LeadingZeros(data)) + if Be(data) == 0 then [0] else DigitsOf(Be(data))
  }

  /** What the decoder reads. */
  function Decoded(ds: seq<nat>): (b: seq<nat>)
    ensures Bytes(b)
  {
    Zeros(LeadingZeros(ds)) + MinBytes(Spelled(ds))
  }

  lemma {:induction false} SpelledDigits(n: nat)
    ensures Spelled(DigitsOf(n)) == n
    ensures n > 0 ==> DigitsOf(n) != [] && DigitsOf(n)[0] != 0
  {
    if n > 0 {
      SpelledDigits(n / 58);
      assert DigitsOf(n)[..|DigitsOf(n)| - 1] == DigitsOf(n / 58);
    }
  }

  lemma {:induction false} NonzeroValue(b: seq<nat>)
    requires b != [] && b[0] != 0
    ensures Be(b) > 0
  {
    if |b| > 1 {
      NonzeroValue(b[..|b| - 1]);
    }
  }

  lemma {:induction false} MinBytesOfValue(b: seq<nat>)
    requires Bytes(b) && (b != [] ==> b[0] != 0)
    ensures MinBytes(Be(b)) == b
  {
    if b != [] {
      var front := b[..|b| - 1];
      MinBytesOfValue(front);
      NonzeroValue(b);
      assert Be(b) / 256 == Be(front) && Be(b) % 256 == b[|b| - 1];
      assert b == front + [b[|b| - 1]];
    }
  }

  lemma {:induction false} ZerosAdd(n: nat, s: seq<nat>)
    ensures Be(Zeros(n) + s) == Be(s) && Spelled(Zeros(n) + s) == Spelled(s)
    decreases |s|, n
  {
    if s == [] {
      assert Zeros(n) + s == Zeros(n);
      if n > 0 {
        ZerosAdd(n - 1, []);
        assert Zeros(n)[..n - 1] == Zeros(n - 1) + [];
      }
    } else {
      ZerosAdd(n, s[..|s| - 1]);
      assert (Zeros(n) + s)[..|Zeros(n) + s| - 1] == Zeros(n) + s[..|s| - 1];
    }
  }

  lemma {:induction false} LeadingZerosCounts(n: nat, s: seq<nat>)
    requires s != [] ==> s[0] != 0
    ensures LeadingZeros(Zeros(n) + s) == n
  {
    var t := Zeros(n) + s;
    assert forall i :: 0 <= i < n ==> t[i] == 0;
    assert s != [] ==> t[n] == s[0];
  }

  predicate HasNonzero(data: seq<nat>) {
    LeadingZeros(data) < |data|
  }

  lemma {:induction false} SplitLeading(data: seq<nat>)
    ensures data == Zeros(LeadingZeros(data)) + data[LeadingZeros(data)..]
    ensures Be(data) == Be(data[LeadingZeros(data)..])
  {
    assert data == Zeros(LeadingZeros(data)) + data[LeadingZeros(data)..];
    hide Be, Spelled, LeadingZeros;
    ZerosAdd(LeadingZeros(data), data[LeadingZeros(data)..]);
  }

  lemma EmptyValues()
    ensures Be([]) == 0 && Spelled([]) == 0 && MinBytes(0) == []
  {
  }

  /** Decoding undoes encoding exactly on byte strings with at least one non-zero byte: an empty or
      all-zero string comes back one byte longer. */
  lemma DecodeEncodeIff(data: seq<nat>)
    requires Bytes(data)
    ensures Decoded(Encoded(data)) == data <==> HasNonzero(data)
  {
    hide Be, DigitsOf, MinBytes, LeadingZeros, Spelled;
    var z := LeadingZeros(data);
    var rest := data[z..];
    SplitLeading(data);
    MinBytesOfValue(rest);
    if z < |data| {
      NonzeroValue(rest);
      var ds := DigitsOf(Be(data));
      SpelledDigits(Be(data));
      ZerosAdd(z, ds);
      LeadingZerosCounts(z, ds);
      assert Encoded(data) == Zeros(z) + ds;
    } else {
      assert rest == [];
      EmptyValues();
      assert Encoded(data) == Zeros(z + 1) + [];
      LeadingZerosCounts(z + 1, []);
      ZerosAdd(z + 1, []);
      assert |Decoded(Encoded(data))| == z + 1;
    }
  }

  /** The smallest input that fails: one zero byte is written as two digits and read back as two bytes. */
  lemma OneZeroByteGrows()
    ensures Encoded([0]) == [0, 0] && Decoded(Encoded([0])) == [0, 0]
  {
    assert LeadingZeros([0]) == 1 && LeadingZeros([0, 0]) == 2;
    assert [0, 0][..1] == [0] && [0][..0] == [];
  }

  lemma {:induction false} MinBytesValue(n: nat)
    ensures Be(MinBytes(n)) == n
    ensures n > 0 ==> MinBytes(n) != [] && MinBytes(n)[0] != 0
  {
    if n > 0 {
      MinBytesValue(n / 256);
      assert MinBytes(n)[..|MinBytes(n)| - 1] == MinBytes(n / 256);
      EmptyValues();
    }
  }

  lemma {:induction false} DigitsOfSpelled(ds: seq<nat>)
    requires Digits58(ds) && (ds != [] ==> ds[0] != 0)
    ensures DigitsOf(Spelled(ds)) == ds && (ds != [] ==> Spelled(ds) > 0)
  {
    if ds != [] {
      var front, last := ds[..|ds| - 1], ds[|ds| - 1];
      DigitsOfSpelled(front);
      assert Spelled(ds) == 58 * Spelled(front) + last;
      assert Spelled(ds) / 58 == Spelled(front) && Spelled(ds) % 58 == last;
      assert ds == front + [last];
    }
  }

  /** Encoding undoes decoding exactly on digit strings with a non-zero digit; so the two are inverse
      bijections there. */
  lemma EncodeDecodeIff(ds: seq<nat>)
    requires Digits58(ds)
    ensures Encoded(Decoded(ds)) == ds <==> HasNonzero(ds)
  {
    hide Be, DigitsOf, MinBytes, LeadingZeros, Spelled;
    var z := LeadingZeros(ds);
    var rest := ds[z..];
    SplitLeading(ds);
    DigitsOfSpelled(rest);
    MinBytesValue(Spelled(rest));
    var b := MinBytes(Spelled(rest));
    ZerosAdd(z, rest);
    ZerosAdd(z, b);
    assert Decoded(ds) == Zeros(z) + b;
    EmptyValues();
    LeadingZerosCounts(z, b);
    if z == |ds| {
      assert rest == [] && b == [];
      assert |Encoded(Decoded(ds))| == z + 1;
    }
  }

  // ------------------------------------------------------------------- encoders

  lemma {:induction false} DigitsStep(n: nat, tail: seq<nat>)
    requires n > 0
    ensures DigitsOf(n) + tail == DigitsOf(n / 58) + ([n % 58] + tail)
  {
  }

  lemma NoDigits(tail: seq<nat>)
    ensures DigitsOf(0) + tail == tail
  {
  }

  /** `encode_base58` of the Node: divide the big integer. */
  method EncodeBigInteger(data: seq<nat>) returns (s: string)
    requires Bytes(data)
    ensures s == Letters(Encoded(data))
  {
    hide Letter, Be, DigitsOf, Encoded;
    var value := Be(data);
    var encoded: seq<nat> := [];
    while value > 0
      invariant Digits58(encoded) && DigitsOf(value) + encoded == DigitsOf(Be(data))
      invariant encoded == [] ==> value == Be(data)
      invariant encoded != [] ==> Be(data) > 0
    {
      DigitsStep(value, encoded);
      encoded := [value % 58] + encoded;
      value := value / 58;
    }
    NoDigits(encoded);
    SpelledDigits(Be(data));
    EncodedIs(data, if encoded == [] then [0] else encoded);
    s := Letters(Zeros(LeadingZeros(data)) + if encoded == [] then [0] else encoded);
  }

  /** Value of a digit array, least significant digit first. */
  function Val(d: seq<nat>): nat {
    if d == [] then 0 else d[0] + 58 * Val(d[1..])
  }

  function Pow58(n: nat): nat {
    if n == 0 then 1 else 58 * Pow58(n - 1)
  }

  lemma Times58(p: nat, x: nat)
    ensures 58 * (p * x) == (58 * p) * x
  {
  }

  lemma {:induction false} ValSnoc(d: seq<nat>, x: nat)
    ensures Val(d + [x]) == Val(d) + Pow58(|d|) * x
  {
    if d == [] {
      assert d + [x] == [x];
    } else {
      ValSnoc(d[1..], x);
      assert (d + [x])[1..] == d[1..] + [x];
      Times58(Pow58(|d| - 1), x);
    }
  }

  /** No leading zero digit, except in the single digit 0. */
  predicate Canonical(d: seq<nat>) {
    d != [] && Digits58(d) && (d[|d| - 1] != 0 || |d| == 1)
  }

  function Reversed(d: seq<nat>): (r: seq<nat>)
    ensures |r| == |d| && (Digits58(d) ==> Digits58(r))
  {
    if d == [] then [] else
      assert Digits58(d) ==> Digits58(d[1..]);
      Reversed(d[1..]) + [d[0]]
  }

  /** Canonical digit arrays are unique: reversed, they are the digits of their value. */
  lemma {:induction false} CanonicalDigits(d: seq<nat>)
    requires Canonical(d)
    ensures Reversed(d) == if Val(d) == 0 then [0] else DigitsOf(Val(d))
    ensures d[|d| - 1] != 0 ==> Val(d) > 0
  {
    if |d| == 1 {
      assert d[1..] == [] && Val(d) == d[0] && Reversed(d[1..]) == [];
      assert d[0] / 58 == 0;
    } else {
      CanonicalDigits(d[1..]);
      assert Val(d) / 58 == Val(d[1..]) && Val(d) % 58 == d[0];
    }
  }

  lemma MulAddArithmetic(v: nat, p: nat, x: nat, carry: nat, w: nat, q: nat, r: nat)
    requires 256 * x + carry == 58 * q + r && v + p * carry == w
    ensures v + p * r + (58 * p) * q == w + 256 * (p * x)
  {
    assert p * (256 * x + carry) == 256 * (p * x) + p * carry;
    assert p * (58 * q + r) == (58 * p) * q + p * r;
  }

  /** The digit loop for one byte: multiply the array by 256 and add, in place. */
  method MulAdd(digits: seq<nat>, byte: nat) returns (d: seq<nat>)
    requires Canonical(digits) && byte < 256
    ensures Canonical(d) && Val(d) == 256 * Val(digits) + byte
  {
    hide Val, Pow58;
    d := digits;
    var carry := byte;
    ValNone();
    for index := 0 to |digits|
      invariant |d| == |digits| && d[index..] == digits[index..] && Digits58(d[..index]) && carry < 256
      invariant Val(d[..index]) + Pow58(index) * carry == 256 * Val(digits[..index]) + byte
      invariant index == |digits| > 0 && digits[|digits| - 1] != 0 ==> carry > 0
      invariant index == |digits| == 1 && carry == 0 ==> d[0] == 256 * digits[0] + byte
    {
      assert d[index] == d[index..][0] == digits[index..][0] == digits[index];
      var next := d[index] * 256 + carry;
      ghost var before := d;
      ValSnoc(before[..index], next % 58);
      ValSnoc(digits[..index], digits[index]);
      PowNext(index);
      MulAddArithmetic(Val(before[..index]), Pow58(index), digits[index], carry, 256 * Val(digits[..index]) + byte, next / 58, next % 58);
      d := d[index := next % 58];
      carry := next / 58;
      assert d[..index + 1] == before[..index] + [next % 58];
      assert digits[..index + 1] == digits[..index] + [digits[index]];
    }
    assert d[..|digits|] == d && digits[..|digits|] == digits;
    while carry > 0
      invariant d != [] && Digits58(d)
      invariant Val(d) + Pow58(|d|) * carry == 256 * Val(digits) + byte
      invariant carry == 0 ==> d[|d| - 1] != 0 || |d| == 1
    {
      ValSnoc(d, carry % 58);
      PowNext(|d|);
      MulAddArithmetic(Val(d), Pow58(|d|), 0, carry, 256 * Val(digits) + byte, carry / 58, carry % 58);
      d := d + [carry % 58];
      carry := carry / 58;
    }
  }

  lemma ValNone()
    ensures Val([]) == 0 && Pow58(0) == 1 && Val([0]) == 0
  {
    assert [0][1..] == [];
  }

  lemma PowNext(n: nat)
    ensures Pow58(n + 1) == 58 * Pow58(n)
  {
  }

  /** `encodeBase58` of the SDK: a growing digit array, no big integers. */
  method EncodeDigitArray(value: seq<nat>) returns (s: string)
    requires Bytes(value)
    ensures s == if value == [] then "" else Letters(Encoded(value))
  {
    hide Val, Letter, Encoded;
    if value == [] {
      return "";
    }
    var digits := [0];
    ValNone();
    assert value[..0] == [] && Be([]) == 0;
    for i := 0 to |value|
      invariant Canonical(digits) && Val(digits) == Be(value[..i])
    {
      digits := MulAdd(digits, value[i]);
      BePrefix(value, i);
    }
    assert value[..|value|] == value;
    CanonicalDigits(digits);
    EncodedIs(value, Reversed(digits));
    s := Letters(Zeros(LeadingZeros(value)) + Reversed(digits));
  }

  lemma {:induction false} EncodedIs(value: seq<nat>, r: seq<nat>)
    requires Bytes(value) && r == if Be(value) == 0 then [0] else DigitsOf(Be(value))
    ensures Encoded(value) == Zeros(LeadingZeros(value)) + r
  {
  }

  /** `decode_base58`: refuses any other character. */
  method Decode(value: string) returns (r: Option<seq<nat>>)
    ensures r.Some? <==> forall i :: 0 <= i < |value| ==> DigitOf(value[i]).Some?
    ensures forall ds: seq<nat> :: Digits58(ds) && value == Letters(ds) ==> r == Some(Decoded(ds))
  {
    hide Letter;
    var number := 0;
    var digits: seq<nat> := [];
    for i := 0 to |value|
      invariant |digits| == i && Digits58(digits) && number == Spelled(digits)
      invariant forall k :: 0 <= k < i ==> DigitOf(value[k]) == Some(digits[k])
    {
      var digit := DigitOf(value[i]);
      if digit.None? {
        NotSpelled(value, i);
        return None;
      }
      number := number * 58 + digit.value;
      assert (digits + [digit.value])[..i] == digits;
      digits := digits + [digit.value];
    }
    forall ds: seq<nat> | Digits58(ds) && value == Letters(ds) ensures ds == digits {
      LettersRead(ds, digits);
    }
    r := Some(Zeros(LeadingZeros(digits)) + MinBytes(number));
  }

  lemma NotSpelled(value: string, i: nat)
    requires i < |value| && DigitOf(value[i]).None?
    ensures forall ds: seq<nat> :: Digits58(ds) ==> value != Letters(ds)
  {
    forall ds: seq<nat> | Digits58(ds) ensures value != Letters(ds) {
      if value == Letters(ds) {
        LetterRoundTrip(ds[i]);
      }
    }
  }

  lemma {:induction false} LettersRead(ds: seq<nat>, digits: seq<nat>)
    requires Digits58(ds) && |digits| == |ds|
    requires forall k :: 0 <= k < |ds| ==> DigitOf(Letters(ds)[k]) == Some(digits[k])
    ensures ds == digits
  {
    forall k | 0 <= k < |ds| ensures ds[k] == digits[k] {
      LetterRoundTrip(ds[k]);
    }
  }
}
