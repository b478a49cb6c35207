/** The proof-bound Ledger Memo: printed by the Node, parsed on chain. */
module LedgerMemo {
  import opened Wrappers
  import opened Sequences
  import opened SparseTrees
  import opened WideScalar
  import opened Bn254Scalar

  const PREFIX := "TSN_GPRU_HEAD_V1:"
  const START := 17
  const FIELDS := 7

  // ------------------------------------------------------------------------ hex

  function HexChar(n: nat): char
    requires n < 16
  {
    if n < 10 then (48 + n) as char else (87 + n) as char
  }

  /** `hex_nibble`: both cases are read. */
  function HexNibble(ch: char): (n: Option<nat>)
    ensures n.Some? ==> n.value < 16
  {
    var c := ch as nat;
    if 48 <= c <= 57 then Some(c - 48)
    else if 97 <= c <= 102 then Some(c - 97 + 10)
    else if 65 <= c <= 70 then Some(c - 65 + 10)
    else None
  }

  /** The hex characters that the Node writes. */
  predicate LowerHex(ch: char) {
    48 <= ch as nat <= 57 || 97 <= ch as nat <= 102
  }

  function Hex(b: seq<nat>): (s: string)
    requires Bytes(b)
    ensures |s| == 2 * |b|
  {
    if b == [] then "" else [HexChar(b[0] / 16), HexChar(b[0] % 16)] + Hex(b[1..])
  }

  /** The bytes a hex string spells, if every character is a hex digit. */
  function Unhex(s: string): (b: Option<seq<nat>>)
    requires |s| % 2 == 0
    ensures b.Some? ==> |b.value| == |s| / 2 && Bytes(b.value)
  {
    if s == "" then Some([])
    else
      match (HexNibble(s[0]), HexNibble(s[1]), Unhex(s[2..]))
      case (Some(high), Some(low), Some(rest)) => Some([high * 16 + low] + rest)
      case _ => None
  }

  /** The nibbles print as the sixteen lower-case digits, and read in either case. */
  lemma HexDigits(n: nat)
    requires n < 16
    ensures HexChar(n) == "0123456789abcdef"[n]
    ensures HexNibble("0123456789abcdef"[n]) == Some(n) && HexNibble("0123456789ABCDEF"[n]) == Some(n)
  {
  }

  lemma OnlyHexDigits(ch: char)
    ensures HexNibble(ch).Some? <==> ch in "0123456789abcdefABCDEF"
  {
    var c := ch as nat;
    var digits := "0123456789abcdefABCDEF";
    if HexNibble(ch).Some? {
      var n := HexNibble(ch).value;
      if c <= 57 {
        assert digits[n] == ch;
      } else if c >= 97 {
        assert digits[n] == ch;
      } else {
        assert digits[n + 6] == ch;
      }
    }
  }

  lemma NibbleRoundTrip(n: nat)
    requires n < 16
    ensures HexNibble(HexChar(n)) == Some(n) && LowerHex(HexChar(n))
  {
  }

  lemma LowerNibble(ch: char)
    requires LowerHex(ch)
    ensures HexNibble(ch).Some? && HexChar(HexNibble(ch).value) == ch
  {
  }

  lemma {:induction false} UnhexHex(b: seq<nat>)
    requires Bytes(b)
    ensures Unhex(Hex(b)) == Some(b)
  {
    if b != [] {
      UnhexHex(b[1..]);
      NibbleRoundTrip(b[0] / 16);
      NibbleRoundTrip(b[0] % 16);
      assert Hex(b)[2..] == Hex(b[1..]);
      assert [b[0] / 16 * 16 + b[0] % 16] + b[1..] == b;
    }
  }

  /** Lower-case hex is the only spelling the printer uses, so it prints back. */
  lemma {:induction false} HexUnhex(s: string)
    requires |s| % 2 == 0 && forall i :: 0 <= i < |s| ==> LowerHex(s[i])
    ensures Unhex(s).Some? && Hex(Unhex(s).value) == s
  {
    if s != "" {
      HexUnhex(s[2..]);
      LowerNibble(s[0]);
      LowerNibble(s[1]);
      var b := Unhex(s).value;
      assert b == [HexNibble(s[0]).value * 16 + HexNibble(s[1]).value] + Unhex(s[2..]).value;
      assert b[0] / 16 == HexNibble(s[0]).value && b[0] % 16 == HexNibble(s[1]).value;
      assert b[1..] == Unhex(s[2..]).value;
      assert Hex(b) == [s[0], s[1]] + s[2..];
      assert s == [s[0], s[1]] + s[2..];
    }
  }

  function Prepend(bytes: seq<nat>, r: Option<seq<nat>>): Option<seq<nat>> {
    match r
    case Some(rest) => Some(bytes + rest)
    case None => None
  }

  lemma {:induction false} UnhexEnds(value: string)
    requires |value| % 2 == 0
    ensures Unhex(value) == Prepend([], Unhex(value[0..]))
  {
    hide Unhex;
    assert value[0..] == value;
    assert Unhex(value).Some? ==> [] + Unhex(value).value == Unhex(value).value;
  }

  lemma Unhexed(output: seq<nat>)
    ensures Prepend(output, Unhex("")) == Some(output)
  {
    assert output + [] == output;
  }

  /** Two more characters are one more byte, or nothing is decoded. */
  lemma UnhexStep(value: string, k: nat, output: seq<nat>)
    requires |value| % 2 == 0 && 2 * k + 2 <= |value|
    ensures
      var high, low := HexNibble(value[2 * k]), HexNibble(value[2 * k + 1]);
      Prepend(output, Unhex(value[2 * k..])) ==
        if high.None? || low.None? then None
        else Prepend(output + [high.value * 16 + low.value], Unhex(value[2 * (k + 1)..]))
  {
    hide HexNibble;
    var tail, rest := value[2 * k..], value[2 * (k + 1)..];
    assert tail[0] == value[2 * k] && tail[1] == value[2 * k + 1] && tail[2..] == rest;
    var high, low := HexNibble(tail[0]), HexNibble(tail[1]);
    if high.Some? && low.Some? && Unhex(rest).Some? {
      var x := [high.value * 16 + low.value];
      assert output + (x + Unhex(rest).value) == (output + x) + Unhex(rest).value;
    }
  }

  /** `decode_hex_32`: the index loop over 64 characters. */
  method DecodeHex32(value: string) returns (r: Option<seq<nat>>)
    ensures |value| != 64 ==> r == None
    ensures |value| == 64 ==> r == Unhex(value)
  {
    if |value| != 64 {
      return None;
    }
    hide HexNibble, Bytes, Unhex, Prepend;
    var output: seq<nat> := [];
    UnhexEnds(value);
    for index := 0 to 32
      invariant |output| == index
      invariant Unhex(value) == Prepend(output, Unhex(value[2 * index..]))
    {
      UnhexStep(value, index, output);
      var high := HexNibble(value[2 * index]);
      if high.None? {
        return None;
      }
      var low := HexNibble(value[2 * index + 1]);
      if low.None? {
        return None;
      }
      output := output + [high.value * 16 + low.value];
    }
    assert value[64..] == "";
    Unhexed(output);
    r := Some(output);
  }

  // -------------------------------------------------------------------- printing

  predicate BodyChar(ch: char) {
    var c := ch as nat;
    65 <= c <= 90 || 97 <= c <= 122 || 48 <= c <= 57 || ch == '_' || ch == '-'
  }

  predicate Body(s: string) {
    s != "" && forall i :: 0 <= i < |s| ==> BodyChar(s[i])
  }

  predicate FieldBytes(b: seq<nat>) {
    |b| == 32 && Bytes(b)
  }

  predicate FieldList(fs: seq<seq<nat>>) {
    forall k :: 0 <= k < |fs| ==> FieldBytes(fs[k])
  }

  function PrintFields(fs: seq<seq<nat>>): (s: string)
    requires FieldList(fs)
    ensures |s| == 65 * |fs|
  {
    if fs == [] then "" else Hex(fs[0]) + ":" + PrintFields(fs[1..])
  }

  /** The Memo that the Node prints: prefix, seven hex fields, body, separated by colons. */
  function Print(fs: seq<seq<nat>>, body: string): string
    requires FieldList(fs)
  {
    PREFIX + PrintFields(fs) + body
  }

  // --------------------------------------------------------------------- parsing

  function FieldStart(k: nat): nat {
    START + 65 * k
  }

  function FieldText(data: string, k: nat): (s: string)
    requires k < FIELDS && |data| >= FieldStart(FIELDS)
    ensures |s| == 64
  {
    data[FieldStart(k)..FieldStart(k) + 64]
  }

  /** The shape the on-chain parser demands. */
  predicate Shape(data: string) {
    && |data| > FieldStart(FIELDS)
    && data[..START] == PREFIX
    && (forall k :: 0 <= k < FIELDS ==> data[FieldStart(k) + 64] == ':')
    && (forall i :: FieldStart(FIELDS) <= i < |data| ==> BodyChar(data[i]))
  }

  predicate FieldReads(data: string, k: nat)
    requires k < FIELDS && |data| >= FieldStart(FIELDS)
  {
    Unhex(FieldText(data, k)).Some? && IsCanonical(Unhex(FieldText(data, k)).value)
  }

  /** The bindings of the first `n` fields. */
  function Bindings(data: string, n: nat): (fs: seq<seq<nat>>)
    requires n <= FIELDS && |data| >= FieldStart(FIELDS) && forall k :: 0 <= k < n ==> FieldReads(data, k)
    ensures |fs| == n && forall k :: 0 <= k < n ==> Unhex(FieldText(data, k)) == Some(fs[k])
  {
    if n == 0 then []
    else
      assert FieldReads(data, n - 1);
      Bindings(data, n - 1) + [Unhex(FieldText(data, n - 1)).value]
  }

  predicate Readable(data: string) {
    Shape(data) && forall k :: 0 <= k < FIELDS ==> FieldReads(data, k)
  }

  /** What the on-chain parser makes of Memo bytes. */
  function ParsedMemo(data: string): Option<seq<seq<nat>>> {
    if Readable(data) then Some(Bindings(data, FIELDS)) else None
  }

  /** The first half of `validate_memo_instruction`: lengths, prefix, separators and body characters. */
  method SplitMemo(data: string) returns (ok: bool, starts: seq<nat>, ends: seq<nat>)
    ensures ok <==> Shape(data)
    ensures ok ==> |starts| == |ends| == FIELDS
    ensures ok ==> forall k :: 0 <= k < FIELDS ==> starts[k] == FieldStart(k) && ends[k] == FieldStart(k) + 64
  {
    hide BodyChar;
    starts, ends := [START], [];
    if |data| < START + 64 * 7 + 7 || data[..START] != PREFIX {
      return false, [], [];
    }
    for index := 0 to 7
      invariant |ends| == index && |starts| == if index < 7 then index + 1 else 7
      invariant forall k :: 0 <= k < |starts| ==> starts[k] == FieldStart(k)
      invariant forall k :: 0 <= k < index ==> ends[k] == FieldStart(k) + 64
      invariant forall k :: 0 <= k < index && k < 6 ==> data[FieldStart(k) + 64] == ':'
    {
      ends := ends + [starts[index] + 64];
      if index < 6 {
        if data[ends[index]] != ':' {
          return false, [], [];
        }
        starts := starts + [ends[index] + 1];
      }
    }
    var finalSeparator := ends[6];
    if data[finalSeparator] != ':' || |data| <= finalSeparator + 1 {
      return false, [], [];
    }
    ok := forall i :: finalSeparator + 1 <= i < |data| ==> BodyChar(data[i]);
  }

  /** `validate_memo_instruction` on the Memo bytes: the seven bindings, or refusal. */
  method ParseMemo(data: string) returns (r: Option<seq<seq<nat>>>)
    ensures r == ParsedMemo(data)
  {
    hide Unhex, IsCanonical, BodyChar, Bindings;
    var ok, starts, ends := SplitMemo(data);
    if !ok {
      return None;
    }
    var bindings: seq<seq<nat>> := [];
    for index := 0 to 7
      invariant |bindings| == index
      invariant forall k :: 0 <= k < index ==> FieldReads(data, k) && Unhex(FieldText(data, k)) == Some(bindings[k])
    {
      assert FieldText(data, index) == data[starts[index]..ends[index]];
      var binding := DecodeHex32(data[starts[index]..ends[index]]);
      if binding.None? || !IsCanonical(binding.value) {
        assert !FieldReads(data, index);
        return None;
      }
      bindings := bindings + [binding.value];
    }
    assert bindings == Bindings(data, FIELDS);
    r := Some(bindings);
  }

  const UPPER := "ABCDEFGHIJKLMNOPQRSTUVWXYZ"
  const LOWER := "abcdefghijklmnopqrstuvwxyz"
  const DIGITS := "0123456789"

  lemma UpperLetter(n: nat)
    requires n < 26
    ensures UPPER[n] as nat == 65 + n
  {
  }

  lemma LowerLetter(n: nat)
    requires n < 26
    ensures LOWER[n] as nat == 97 + n
  {
  }

  lemma Digit(n: nat)
    requires n < 10
    ensures DIGITS[n] as nat == 48 + n
  {
  }

  /** The body characters are the base64url alphabet (section 5 of RFC 4648). */
  lemma BodyAlphabet(ch: char)
    ensures BodyChar(ch) <==> ch in UPPER || ch in LOWER || ch in DIGITS || ch == '-' || ch == '_'
  {
    var c := ch as nat;
    if 65 <= c <= 90 {
      UpperLetter(c - 65);
    } else if 97 <= c <= 122 {
      LowerLetter(c - 97);
    } else if 48 <= c <= 57 {
      Digit(c - 48);
    }
    if ch in UPPER {
      var n :| 0 <= n < 26 && UPPER[n] == ch;
      UpperLetter(n);
    }
    if ch in LOWER {
      var n :| 0 <= n < 26 && LOWER[n] == ch;
      LowerLetter(n);
    }
    if ch in DIGITS {
      var n :| 0 <= n < 10 && DIGITS[n] == ch;
      Digit(n);
    }
  }

  // ----------------------------------------------------------------- round trips

  lemma {:induction false} PrintedField(fs: seq<seq<nat>>, k: nat)
    requires FieldList(fs) && k < |fs|
    ensures PrintFields(fs)[65 * k..65 * k + 64] == Hex(fs[k]) && PrintFields(fs)[65 * k + 64] == ':'
  {
    hide Hex;
    var s := PrintFields(fs);
    if k > 0 {
      var t := PrintFields(fs[1..]);
      PrintedField(fs[1..], k - 1);
      assert s[65..] == t;
      assert s[65 * k..65 * k + 64] == t[65 * (k - 1)..65 * (k - 1) + 64];
    } else {
      assert s[..64] == Hex(fs[0]);
    }
  }

  /** A printed Memo has the shape that the parser demands, and its field texts are the printed fields. */
  lemma PrintedShape(fs: seq<seq<nat>>, body: string)
    requires |fs| == FIELDS && FieldList(fs) && Body(body)
    ensures Shape(Print(fs, body)) && forall k :: 0 <= k < FIELDS ==> FieldText(Print(fs, body), k) == Hex(fs[k])
    ensures "TSN_GPRU_HEAD_V1:" <= Print(fs, body) && Print(fs, body)[17 + 7 * 65..] == body
  {
    hide Hex, BodyChar, PrintFields;
    var data := Print(fs, body);
    assert |PREFIX| == START;
    forall k | 0 <= k < FIELDS ensures data[FieldStart(k) + 64] == ':' && FieldText(data, k) == Hex(fs[k]) {
      PrintedField(fs, k);
      assert data[FieldStart(k) + 64] == PrintFields(fs)[65 * k + 64];
      assert FieldText(data, k) == PrintFields(fs)[65 * k..65 * k + 64];
    }
    assert data[..START] == PREFIX;
    forall i | FieldStart(FIELDS) <= i < |data| ensures BodyChar(data[i]) {
      assert data[i] == body[i - FieldStart(FIELDS)];
    }
  }

  /** The parser recovers exactly the seven fields of a printed Memo, in order, if all of them are canonical
      scalars, and refuses it otherwise. */
  lemma PrintedMemoParses(fs: seq<seq<nat>>, body: string)
    requires |fs| == FIELDS && FieldList(fs) && Body(body)
    ensures ParsedMemo(Print(fs, body)) == if forall k :: 0 <= k < FIELDS ==> Be(fs[k]) < FIELD then Some(fs) else None
  {
    hide Hex, Unhex, BodyChar, Print, Bindings;
    var data := Print(fs, body);
    PrintedShape(fs, body);
    forall k | 0 <= k < FIELDS ensures Unhex(FieldText(data, k)) == Some(fs[k]) && (FieldReads(data, k) <==> Be(fs[k]) < FIELD) {
      UnhexHex(fs[k]);
    }
    if Readable(data) {
      assert forall k :: 0 <= k < FIELDS ==> Bindings(data, FIELDS)[k] == fs[k];
      assert Bindings(data, FIELDS) == fs;
    }
  }

  lemma {:induction false} FieldsReprint(data: string, fs: seq<seq<nat>>)
    requires FieldList(fs) && |data| == 65 * |fs|
    requires forall k :: 0 <= k < |fs| ==> data[65 * k..65 * k + 64] == Hex(fs[k]) && data[65 * k + 64] == ':'
    ensures PrintFields(fs) == data
  {
    hide Hex;
    if fs != [] {
      var rest := data[65..];
      forall k | 0 <= k < |fs[1..]| ensures rest[65 * k..65 * k + 64] == Hex(fs[1..][k]) && rest[65 * k + 64] == ':' {
        assert fs[1..][k] == fs[k + 1];
        assert rest[65 * k..65 * k + 64] == data[65 * (k + 1)..65 * (k + 1) + 64];
      }
      FieldsReprint(rest, fs[1..]);
      assert data[65 * 0..65 * 0 + 64] == Hex(fs[0]) && data[64] == ':';
      assert data == data[..64] + [data[64]] + rest;
    }
  }

  lemma MiddleField(data: string, k: nat)
    requires k < FIELDS && |data| > FieldStart(FIELDS)
    ensures data[START..FieldStart(FIELDS)][65 * k..65 * k + 64] == FieldText(data, k)
    ensures data[START..FieldStart(FIELDS)][65 * k + 64] == data[FieldStart(k) + 64]
  {
    var middle := data[START..FieldStart(FIELDS)];
    assert forall i :: 0 <= i < |middle| ==> middle[i] == data[START + i];
    assert |middle| == 65 * FIELDS && 65 * k + 65 <= |middle|;
    SubSlice(data, START, FieldStart(FIELDS), 65 * k, 65 * k + 64);
  }

  /** Conversely, an accepted Memo in lower-case hex (what the Node's own pattern admits) is the printout
      of the fields that the parser returns. */
  lemma ParsedMemoReprints(data: string, fs: seq<seq<nat>>)
    requires ParsedMemo(data) == Some(fs)
    requires forall k, i :: 0 <= k < FIELDS && 0 <= i < 64 ==> LowerHex(FieldText(data, k)[i])
    ensures FieldList(fs) && Body(data[FieldStart(FIELDS)..]) && Print(fs, data[FieldStart(FIELDS)..]) == data
  {
    hide Hex, Unhex, BodyChar, PrintFields, LowerHex, IsCanonical;
    var middle := data[START..FieldStart(FIELDS)];
    forall k | 0 <= k < FIELDS ensures middle[65 * k..65 * k + 64] == Hex(fs[k]) && middle[65 * k + 64] == ':' {
      HexUnhex(FieldText(data, k));
      MiddleField(data, k);
    }
    FieldsReprint(middle, fs);
    assert data == data[..START] + middle + data[FieldStart(FIELDS)..];
  }

  // --------------------------------------------------------------- ledger slots

  const SLOT := 32

  function Pad(n: nat): (s: string)
    ensures |s| == n && forall i :: 0 <= i < n ==> s[i] == '='
  {
    if n == 0 then "" else Pad(n - 1) + "="
  }

  /** `encoded[index:index + 32].ljust(32, "=")` for index in steps of 32. */
  function Slots(encoded: string): (slots: seq<string>)
    ensures forall k :: 0 <= k < |slots| ==> |slots[k]| == 32
    decreases |encoded|
  {
    if encoded == "" then []
    else if |encoded| < SLOT then [encoded + Pad(SLOT - |encoded|)]
    else [encoded[..SLOT]] + Slots(encoded[SLOT..])
  }

  /** Slot k holds the characters from 32 k on, filled up with '=' at the end of the text. */
  lemma {:induction false} SlotAt(encoded: string, k: nat)
    requires 32 * k < |encoded|
    ensures k < |Slots(encoded)|
    ensures var slot := Slots(encoded)[k];
      if 32 * k + 32 <= |encoded| then slot == encoded[32 * k..32 * k + 32]
      else |slot| == 32 && encoded[32 * k..] <= slot && forall j :: |encoded| - 32 * k <= j < 32 ==> slot[j] == '='
    decreases |encoded|
  {
    if |encoded| >= 32 {
      var rest := encoded[32..];
      assert Slots(encoded) == [encoded[..32]] + Slots(rest);
      if k > 0 {
        SlotAt(rest, k - 1);
        assert rest[32 * (k - 1)..] == encoded[32 * k..];
        if 32 * k + 32 <= |encoded| {
          assert rest[32 * (k - 1)..32 * (k - 1) + 32] == encoded[32 * k..32 * k + 32];
        }
      }
    } else {
      assert k == 0 && encoded[0..] == encoded && Slots(encoded) == [encoded + Pad(32 - |encoded|)];
    }
  }

  /** `slot.rstrip("=")`. */
  function Strip(s: string): string {
    if s != "" && s[|s| - 1] == '=' then Strip(s[..|s| - 1]) else s
  }

  function Join(slots: seq<string>): string {
    if slots == [] then "" else Strip(slots[0]) + Join(slots[1..])
  }

  lemma {:induction false} StripPad(s: string, n: nat)
    requires s != "" ==> s[|s| - 1] != '='
    ensures Strip(s + Pad(n)) == s
  {
    if n == 0 {
      assert s + Pad(0) == s;
    } else {
      StripPad(s, n - 1);
      assert (s + Pad(n))[..|s| + n - 1] == s + Pad(n - 1);
    }
  }

  /** The padded slots re-join to the body they were cut from. */
  lemma {:induction false} SlotsRejoin(encoded: string)
    requires forall i :: 0 <= i < |encoded| ==> BodyChar(encoded[i])
    ensures Join(Slots(encoded)) == encoded
    decreases |encoded|
  {
    if encoded == "" {
    } else if |encoded| < SLOT {
      StripPad(encoded, SLOT - |encoded|);
      assert Slots(encoded)[1..] == [];
    } else {
      SlotsRejoin(encoded[SLOT..]);
      assert BodyChar(encoded[SLOT - 1]);
      StripPad(encoded[..SLOT], 0);
      assert encoded[..SLOT] + Pad(0) == encoded[..SLOT];
      assert Slots(encoded)[1..] == Slots(encoded[SLOT..]);
      assert encoded == encoded[..SLOT] + encoded[SLOT..];
    }
  }
}
