/** The Solana v1 message parser of the Mother Node and its transport size formula. */
module SolanaMessage {
  import opened Wrappers
  import opened Sequences
  import opened WideScalar

  type Key = seq<nat>

  datatype Instruction = Instruction(program: Key, accounts: seq<Key>, data: seq<nat>)

  datatype Message = Message(
    requiredSignatures: nat, readonlySigned: nat, readonlyUnsigned: nat, keys: seq<Key>, blockhash: seq<nat>,
    instructions: seq<Instruction>)

  /** An instruction on the wire: indices into the address list. */
  datatype Compiled = Compiled(program: nat, accounts: seq<nat>, data: seq<nat>)

  datatype Header = Header(program: nat, accountCount: nat, dataLength: nat)

  // -------------------------------------------------------------------- encoding

  function Concat(parts: seq<seq<nat>>): seq<nat> {
    if parts == [] then [] else Concat(parts[..|parts| - 1]) + parts[|parts| - 1]
  }

  function HeaderBytes(h: Header): seq<nat> {
    [h.program, h.accountCount, h.dataLength % 256, h.dataLength / 256]
  }

  function Headers(hs: seq<Header>): seq<nat> {
    if hs == [] then [] else Headers(hs[..|hs| - 1]) + HeaderBytes(hs[|hs| - 1])
  }

  function Payloads(cs: seq<Compiled>): seq<nat> {
    if cs == [] then [] else Payloads(cs[..|cs| - 1]) + (cs[|cs| - 1].accounts + cs[|cs| - 1].data)
  }

  function HeaderOf(c: Compiled): Header {
    Header(c.program, |c.accounts|, |c.data|)
  }

  /** The header run of a list of compiled instructions. */
  function HeaderRun(cs: seq<Compiled>): seq<nat> {
    if cs == [] then [] else HeaderRun(cs[..|cs| - 1]) + HeaderBytes(HeaderOf(cs[|cs| - 1]))
  }

  /** First position of a key in the address list. */
  function IndexIn(keys: seq<Key>, key: Key): (i: nat)
    requires key in keys
    ensures i < |keys| && keys[i] == key
  {
    if keys[0] == key then 0 else 1 + IndexIn(keys[1..], key)
  }

  function IndicesIn(keys: seq<Key>, wanted: seq<Key>): (s: seq<nat>)
    requires forall k :: k in wanted ==> k in keys
    ensures |s| == |wanted| && forall i :: 0 <= i < |wanted| ==> s[i] == IndexIn(keys, wanted[i])
  {
    if wanted == [] then [] else IndicesIn(keys, wanted[..|wanted| - 1]) + [IndexIn(keys, wanted[|wanted| - 1])]
  }

  predicate Resolvable(keys: seq<Key>, i: Instruction) {
    i.program in keys && forall k :: k in i.accounts ==> k in keys
  }

  function Compile(keys: seq<Key>, i: Instruction): Compiled
    requires Resolvable(keys, i)
  {
    Compiled(IndexIn(keys, i.program), IndicesIn(keys, i.accounts), i.data)
  }

  function CompileAll(keys: seq<Key>, list: seq<Instruction>): (cs: seq<Compiled>)
    requires forall i :: 0 <= i < |list| ==> Resolvable(keys, list[i])
    ensures |cs| == |list| && forall i :: 0 <= i < |list| ==> cs[i] == Compile(keys, list[i])
  {
    if list == [] then [] else CompileAll(keys, list[..|list| - 1]) + [Compile(keys, list[|list| - 1])]
  }

  /** Bytes of config values announced by a config mask. */
  function ConfigSize(mask: nat): nat {
    (if mask % 4 == 3 then 8 else 0) + 4 * (mask / 4 % 2) + 4 * (mask / 8 % 2) + 4 * (mask / 16 % 2)
  }

  /** Only the five known bits, priority fee both or neither, both mandatory limits present. */
  predicate MaskOk(mask: nat) {
    mask < 32 && (mask % 4 == 0 || mask % 4 == 3) && mask / 4 % 4 == 3
  }

  /** The runs of a v1 message, in wire order. */
  function Layout(lead: seq<nat>, mask: seq<nat>, blockhash: seq<nat>, counts: seq<nat>, keys: seq<nat>, config: seq<nat>,
                  headers: seq<nat>, payloads: seq<nat>): seq<nat> {
    lead + mask + blockhash + counts + keys + config + headers + payloads
  }

  /** The wire form of a message, given the two parts that the parser checks but does not return. */
  function Encode(m: Message, mask: nat, config: seq<nat>): seq<nat>
    requires forall i :: 0 <= i < |m.instructions| ==> Resolvable(m.keys, m.instructions[i])
  {
    var compiled := CompileAll(m.keys, m.instructions);
    Layout([0x81, m.requiredSignatures, m.readonlySigned, m.readonlyUnsigned], LeBytes(mask, 4), m.blockhash,
           [|m.instructions|, |m.keys|], Concat(m.keys), config, HeaderRun(compiled), Payloads(compiled))
  }

  predicate Distinct(keys: seq<Key>) {
    forall i, j :: 0 <= i < j < |keys| ==> keys[i] != keys[j]
  }

  /** What every accepted message satisfies besides being an encoding. */
  predicate WellFormed(m: Message, mask: nat, config: seq<nat>) {
    && MaskOk(mask) && |config| == ConfigSize(mask) && |m.blockhash| == 32
    && 0 < |m.keys| <= 96 && 0 < |m.instructions| <= 64
    && Distinct(m.keys) && (forall i :: 0 <= i < |m.keys| ==> |m.keys[i]| == 32)
    && (forall i :: 0 <= i < |m.instructions| ==> Resolvable(m.keys, m.instructions[i]))
  }

  ghost predicate IsEncoding(message: seq<nat>, m: Message, mask: nat, config: seq<nat>) {
    WellFormed(m, mask, config) && message == Encode(m, mask, config)
  }

  // ------------------------------------------------------------- distinct keys

  function KeySet(keys: seq<Key>): set<Key> {
    set k | k in keys
  }

  lemma KeySetSnoc(front: seq<Key>, last: Key)
    ensures KeySet(front + [last]) == KeySet(front) + {last}
  {
  }

  lemma {:induction false} KeySetSize(keys: seq<Key>)
    ensures |KeySet(keys)| <= |keys|
  {
    hide KeySet;
    if keys == [] {
      NoKeys();
    } else {
      var front, last := keys[..|keys| - 1], keys[|keys| - 1];
      KeySetSize(front);
      KeySetSnoc(front, last);
      assert keys == front + [last];
    }
  }

  lemma NoKeys()
    ensures KeySet([]) == {}
  {
  }

  lemma KeyInFront(front: seq<Key>, last: Key)
    requires Distinct(front)
    ensures Distinct(front + [last]) <==> last !in KeySet(front)
  {
    var keys := front + [last];
    if last in front {
      var i :| 0 <= i < |front| && front[i] == last;
      assert keys[i] == keys[|front|];
    }
  }

  lemma FrontDistinct(front: seq<Key>, last: Key)
    requires Distinct(front + [last])
    ensures Distinct(front)
  {
    var keys := front + [last];
    assert forall i :: 0 <= i < |front| ==> front[i] == keys[i];
  }

  /** Comparing the size of the key set with the length of the list decides that no key occurs twice. */
  lemma {:induction false} DistinctIffCount(keys: seq<Key>)
    ensures Distinct(keys) <==> |KeySet(keys)| == |keys|
  {
    hide KeySet, Distinct;
    if keys == [] {
      NoKeys();
      NoneTwice();
    } else {
      var front, last := keys[..|keys| - 1], keys[|keys| - 1];
      assert keys == front + [last];
      DistinctIffCount(front);
      KeySetSize(front);
      KeySetSnoc(front, last);
      if Distinct(front) {
        KeyInFront(front, last);
      } else if Distinct(keys) {
        FrontDistinct(front, last);
      }
    }
  }

  lemma NoneTwice()
    ensures Distinct([])
  {
  }

  // --------------------------------------------------------------------- parsing

  lemma {:induction false} IndexOfDistinct(keys: seq<Key>, i: nat)
    requires Distinct(keys) && i < |keys|
    ensures IndexIn(keys, keys[i]) == i
  {
    if i > 0 {
      assert keys[0] != keys[i] && keys[1..][i - 1] == keys[i];
      IndexOfDistinct(keys[1..], i - 1);
    }
  }

  function KeysAt(keys: seq<Key>, indices: seq<nat>): (s: seq<Key>)
    requires forall k :: 0 <= k < |indices| ==> indices[k] < |keys|
    ensures |s| == |indices| && forall k :: 0 <= k < |indices| ==> s[k] == keys[indices[k]]
  {
    if indices == [] then [] else KeysAt(keys, indices[..|indices| - 1]) + [keys[indices[|indices| - 1]]]
  }

  predicate InRange(keys: seq<Key>, c: Compiled) {
    c.program < |keys| && forall k :: 0 <= k < |c.accounts| ==> c.accounts[k] < |keys|
  }

  function Resolve(keys: seq<Key>, c: Compiled): Instruction
    requires InRange(keys, c)
  {
    Instruction(keys[c.program], KeysAt(keys, c.accounts), c.data)
  }

  /** With distinct keys, resolving loses nothing. */
  lemma CompileResolve(keys: seq<Key>, c: Compiled)
    requires Distinct(keys) && InRange(keys, c)
    ensures Resolvable(keys, Resolve(keys, c)) && Compile(keys, Resolve(keys, c)) == c
  {
    IndexOfDistinct(keys, c.program);
    forall k | 0 <= k < |c.accounts| ensures IndicesIn(keys, Resolve(keys, c).accounts)[k] == c.accounts[k] {
      IndexOfDistinct(keys, c.accounts[k]);
    }
  }

  method ReadKeys(message: seq<nat>, start: nat, count: nat) returns (keys: seq<Key>)
    requires start + 32 * count <= |message|
    ensures |keys| == count && (forall i :: 0 <= i < count ==> |keys[i]| == 32)
    ensures Concat(keys) == message[start..start + 32 * count]
  {
    keys := [];
    for index := 0 to count
      invariant |keys| == index && (forall i :: 0 <= i < index ==> |keys[i]| == 32)
      invariant Concat(keys) == message[start..start + 32 * index]
    {
      var key := message[start + index * 32..start + (index + 1) * 32];
      assert (keys + [key])[..index] == keys;
      keys := keys + [key];
    }
  }

  lemma {:induction false} LeOfTwo(b: seq<nat>)
    requires |b| == 2
    ensures Le(b) == b[0] + 256 * b[1]
  {
    assert Le(b) == b[0] + 256 * Le(b[1..]);
    assert Le(b[1..]) == b[1] + 256 * Le(b[1..][1..]) && b[1..][1..] == [];
  }

  function HeaderAt(message: seq<nat>, h: nat): Header
    requires h + 4 <= |message|
  {
    Header(message[h], message[h + 1], Le(message[h + 2..h + 4]))
  }

  lemma HeaderAtIs(message: seq<nat>, h: nat)
    requires h + 4 <= |message|
    ensures HeaderAt(message, h) == Header(message[h], message[h + 1], Le(message[h + 2..h + 4]))
  {
    hide Le;
  }

  method ReadHeaders(message: seq<nat>, start: nat, count: nat) returns (headers: seq<Header>, cursor: nat)
    requires Bytes(message) && start + 4 * count <= |message|
    ensures |headers| == count && cursor == start + 4 * count
    ensures Headers(headers) == message[start..cursor]
    ensures forall i :: 0 <= i < count ==> headers[i].program == message[start + 4 * i]
    ensures forall i :: 0 <= i < count ==> headers[i].accountCount == message[start + 4 * i + 1]
    ensures forall i :: 0 <= i < count ==> headers[i].dataLength == Le(message[start + 4 * i + 2..start + 4 * i + 4])
  {
    hide Le, HeaderAt;
    headers, cursor := [], start;
    for index := 0 to count
      invariant |headers| == index && cursor == start + 4 * index
      invariant Headers(headers) == message[start..cursor]
      invariant forall i :: 0 <= i < index ==> headers[i] == HeaderAt(message, start + 4 * i)
    {
      HeaderAtIs(message, cursor);
      LeOfTwo(message[cursor + 2..cursor + 4]);
      var header := Header(message[cursor], message[cursor + 1], message[cursor + 2] + 256 * message[cursor + 3]);
      assert HeaderBytes(header) == message[cursor..cursor + 4];
      assert (headers + [header])[..index] == headers;
      headers := headers + [header];
      cursor := cursor + 4;
    }
    forall i | 0 <= i < count
      ensures headers[i].program == message[start + 4 * i] && headers[i].accountCount == message[start + 4 * i + 1]
      ensures headers[i].dataLength == Le(message[start + 4 * i + 2..start + 4 * i + 4])
    {
      HeaderAtIs(message, start + 4 * i);
    }
  }

  lemma SliceJoin(s: seq<nat>, a: nat, b: nat, c: nat)
    requires a <= b <= c <= |s|
    ensures s[a..b] + s[b..c] == s[a..c]
  {
  }

  /** One more instruction continues the header run and the payload run. */
  lemma {:induction false} OneMore(message: seq<nat>, start: nat, cursor: nat, headers: seq<Header>, index: nat, compiled: seq<Compiled>, c: Compiled)
    requires index < |headers| && HeaderOf(c) == headers[index] && HeaderRun(compiled) == Headers(headers[..index])
    requires start <= cursor && cursor + |c.accounts| + |c.data| <= |message| && Payloads(compiled) == message[start..cursor]
    requires c.accounts + c.data == message[cursor..cursor + |c.accounts| + |c.data|]
    ensures HeaderRun(compiled + [c]) == Headers(headers[..index + 1])
    ensures Payloads(compiled + [c]) == message[start..cursor + |c.accounts| + |c.data|]
  {
    var longer := compiled + [c];
    assert longer[..|longer| - 1] == compiled && headers[..index + 1][..index] == headers[..index];
    SliceJoin(message, start, cursor, cursor + |c.accounts| + |c.data|);
  }

  /** A list of compiled instructions that the given headers and the bytes from `start` spell. */
  ghost predicate Reads(message: seq<nat>, start: nat, headers: seq<Header>, keys: seq<Key>, wanted: seq<Compiled>) {
    && HeaderRun(wanted) == Headers(headers) && (forall i :: 0 <= i < |wanted| ==> InRange(keys, wanted[i]))
    && start <= |message| && Payloads(wanted) <= message[start..]
  }

  /** The instruction that the header and the bytes at the cursor determine, when they fit. */
  function At(message: seq<nat>, cursor: nat, h: Header): Compiled
    requires cursor + h.accountCount + h.dataLength <= |message|
  {
    Compiled(h.program, message[cursor..cursor + h.accountCount],
             message[cursor + h.accountCount..cursor + h.accountCount + h.dataLength])
  }

  /** The bytes at the cursor spell one instruction with the given header. */
  predicate Continues(message: seq<nat>, cursor: nat, keys: seq<Key>, h: Header, c: Compiled) {
    && HeaderOf(c) == h && InRange(keys, c)
    && cursor + h.accountCount + h.dataLength <= |message|
    && c == At(message, cursor, h)
  }

  lemma {:induction false} HeadersSize(hs: seq<Header>)
    ensures |Headers(hs)| == 4 * |hs|
  {
    if hs != [] {
      HeadersSize(hs[..|hs| - 1]);
    }
  }

  lemma HeaderBytesInjective(g: Header, h: Header)
    requires HeaderBytes(g) == HeaderBytes(h)
    ensures g == h
  {
    var a, b := HeaderBytes(g), HeaderBytes(h);
    assert a[0] == b[0] && a[1] == b[1] && a[2] == b[2] && a[3] == b[3];
  }

  /** Equal header runs come from equal headers. */
  lemma {:induction false} HeaderRunInjective(cs: seq<Compiled>, hs: seq<Header>)
    requires HeaderRun(cs) == Headers(hs)
    ensures |cs| == |hs| && forall i :: 0 <= i < |cs| ==> HeaderOf(cs[i]) == hs[i]
  {
    HeaderRunSize(cs);
    HeadersSize(hs);
    if cs != [] {
      var n := |cs| - 1;
      AppendInjective(HeaderRun(cs[..n]), HeaderBytes(HeaderOf(cs[n])), Headers(hs[..n]), HeaderBytes(hs[n]));
      HeaderBytesInjective(HeaderOf(cs[n]), hs[n]);
      HeaderRunInjective(cs[..n], hs[..n]);
      assert forall i :: 0 <= i < n ==> cs[..n][i] == cs[i] && hs[..n][i] == hs[i];
    }
  }

  lemma {:induction false} PayloadsPrefix(cs: seq<Compiled>, k: nat)
    requires k <= |cs|
    ensures Payloads(cs[..k]) <= Payloads(cs)
    decreases |cs|
  {
    if k < |cs| {
      var front := cs[..|cs| - 1];
      PayloadsPrefix(front, k);
      assert front[..k] == cs[..k];
    } else {
      assert cs[..k] == cs;
    }
  }

  lemma ReadsCount(message: seq<nat>, start: nat, headers: seq<Header>, keys: seq<Key>, wanted: seq<Compiled>)
    requires Reads(message, start, headers, keys, wanted)
    ensures |wanted| == |headers|
  {
    HeaderRunInjective(wanted, headers);
  }

  /** Any list that the bytes spell goes on with the instruction found at the cursor. */
  lemma {:induction false} NextRead(message: seq<nat>, start: nat, headers: seq<Header>, keys: seq<Key>, wanted: seq<Compiled>,
                 compiled: seq<Compiled>, cursor: nat)
    requires Reads(message, start, headers, keys, wanted) && |compiled| < |headers| && compiled <= wanted
    requires start <= cursor <= |message| && Payloads(compiled) == message[start..cursor]
    ensures |compiled| < |wanted| && Continues(message, cursor, keys, headers[|compiled|], wanted[|compiled|])
  {
    hide HeaderRun, Headers, InRange, Payloads, At;
    HeaderRunInjective(wanted, headers);
    NextPayload(wanted, compiled);
    var c := wanted[|compiled|];
    PrefixChain(Payloads(compiled) + (c.accounts + c.data), Payloads(wanted), message[start..]);
    SpelledAt(message, start, cursor, c);
  }

  lemma OneLonger(a: seq<Compiled>, b: seq<Compiled>)
    requires a <= b && |a| < |b|
    ensures a + [b[|a|]] <= b
  {
  }

  lemma PrefixChain(a: seq<nat>, b: seq<nat>, c: seq<nat>)
    requires a <= b <= c
    ensures a <= c
  {
  }

  lemma {:induction false} NextPayload(wanted: seq<Compiled>, compiled: seq<Compiled>)
    requires compiled <= wanted && |compiled| < |wanted|
    ensures Payloads(compiled) + (wanted[|compiled|].accounts + wanted[|compiled|].data) <= Payloads(wanted)
  {
    var index := |compiled|;
    var more := wanted[..index + 1];
    assert more[..index] == compiled && more[index] == wanted[index];
    PayloadsPrefix(wanted, index + 1);
  }

  lemma SpelledAt(message: seq<nat>, start: nat, cursor: nat, c: Compiled)
    requires start <= cursor <= |message| && message[start..cursor] + (c.accounts + c.data) <= message[start..]
    ensures cursor + |c.accounts| + |c.data| <= |message| && c == At(message, cursor, HeaderOf(c))
  {
    var w, x, y, o := message[start..cursor] + (c.accounts + c.data), c.accounts, c.data, cursor - start;
    assert forall i :: 0 <= i < |w| ==> w[i] == message[start + i];
    assert forall i :: 0 <= i < |x| ==> x[i] == w[o + i];
    assert forall i :: 0 <= i < |y| ==> y[i] == w[o + |x| + i];
    assert x == message[cursor..cursor + |x|] && y == message[cursor + |x|..cursor + |x| + |y|];
  }

  /** Every list that the bytes spell starts with the instructions read so far. */
  ghost predicate Forced(message: seq<nat>, start: nat, headers: seq<Header>, keys: seq<Key>, compiled: seq<Compiled>) {
    forall wanted :: Reads(message, start, headers, keys, wanted) ==> compiled <= wanted
  }

  ghost predicate NoneReads(message: seq<nat>, start: nat, headers: seq<Header>, keys: seq<Key>) {
    forall wanted :: !Reads(message, start, headers, keys, wanted)
  }

  /** The next instruction is forced; when it does not fit or is out of range, nothing is spelled. */
  lemma {:induction false} ForcedStep(message: seq<nat>, start: nat, headers: seq<Header>, keys: seq<Key>, compiled: seq<Compiled>, cursor: nat)
    requires |compiled| < |headers| && Forced(message, start, headers, keys, compiled)
    requires start <= cursor <= |message| && Payloads(compiled) == message[start..cursor]
    ensures
      var h := headers[|compiled|];
      if cursor + h.accountCount + h.dataLength <= |message| && InRange(keys, At(message, cursor, h))
      then Forced(message, start, headers, keys, compiled + [At(message, cursor, h)])
      else NoneReads(message, start, headers, keys)
  {
    hide Reads, Payloads, InRange, At;
    var h := headers[|compiled|];
    forall wanted | Reads(message, start, headers, keys, wanted)
      ensures cursor + h.accountCount + h.dataLength <= |message| && InRange(keys, At(message, cursor, h))
      ensures compiled + [At(message, cursor, h)] <= wanted
    {
      NextRead(message, start, headers, keys, wanted, compiled, cursor);
      OneLonger(compiled, wanted);
    }
  }

  lemma ForcedWhole(message: seq<nat>, start: nat, headers: seq<Header>, keys: seq<Key>, compiled: seq<Compiled>)
    requires |compiled| == |headers| && Forced(message, start, headers, keys, compiled)
    ensures forall wanted :: Reads(message, start, headers, keys, wanted) ==> compiled == wanted
  {
    hide Reads;
    forall wanted | Reads(message, start, headers, keys, wanted) ensures compiled == wanted {
      ReadsCount(message, start, headers, keys, wanted);
    }
  }

  /** What the payload loop has established at a cursor. */
  ghost predicate ReadSoFar(message: seq<nat>, start: nat, headers: seq<Header>, keys: seq<Key>,
                            compiled: seq<Compiled>, instructions: seq<Instruction>, cursor: nat) {
    && |instructions| == |compiled| <= |headers| && start <= cursor <= |message|
    && HeaderRun(compiled) == Headers(headers[..|compiled|]) && Payloads(compiled) == message[start..cursor]
    && AllResolved(keys, compiled, instructions)
    && Forced(message, start, headers, keys, compiled)
  }

  ghost predicate AllResolved(keys: seq<Key>, compiled: seq<Compiled>, instructions: seq<Instruction>) {
    && |compiled| == |instructions|
    && forall i :: 0 <= i < |compiled| ==> InRange(keys, compiled[i]) && instructions[i] == Resolve(keys, compiled[i])
  }

  lemma Starting(message: seq<nat>, start: nat, headers: seq<Header>, keys: seq<Key>)
    requires start <= |message|
    ensures ReadSoFar(message, start, headers, keys, [], [], start)
  {
  }

  lemma OneMoreResolved(keys: seq<Key>, compiled: seq<Compiled>, instructions: seq<Instruction>, c: Compiled)
    requires AllResolved(keys, compiled, instructions) && InRange(keys, c)
    ensures AllResolved(keys, compiled + [c], instructions + [Resolve(keys, c)])
  {
    hide InRange, Resolve;
  }

  lemma ReadOn(message: seq<nat>, start: nat, headers: seq<Header>, keys: seq<Key>,
               compiled: seq<Compiled>, instructions: seq<Instruction>, cursor: nat)
    requires ReadSoFar(message, start, headers, keys, compiled, instructions, cursor) && |compiled| < |headers|
    ensures
      var h := headers[|compiled|];
      if cursor + h.accountCount + h.dataLength <= |message| && InRange(keys, At(message, cursor, h))
      then
        var c := At(message, cursor, h);
        ReadSoFar(message, start, headers, keys, compiled + [c], instructions + [Resolve(keys, c)],
                  cursor + h.accountCount + h.dataLength)
      else NoneReads(message, start, headers, keys)
  {
    hide Forced, NoneReads, InRange, Resolve, HeaderRun, Headers, Payloads, AllResolved;
    var h := headers[|compiled|];
    ForcedStep(message, start, headers, keys, compiled, cursor);
    if cursor + h.accountCount + h.dataLength <= |message| && InRange(keys, At(message, cursor, h)) {
      var c := At(message, cursor, h);
      SliceJoin(message, cursor, cursor + h.accountCount, cursor + h.accountCount + h.dataLength);
      OneMore(message, start, cursor, headers, |compiled|, compiled, c);
      OneMoreResolved(keys, compiled, instructions, c);
    }
  }

  lemma {:induction false} ReadWhole(message: seq<nat>, start: nat, headers: seq<Header>, keys: seq<Key>,
                  compiled: seq<Compiled>, instructions: seq<Instruction>, cursor: nat)
    requires ReadSoFar(message, start, headers, keys, compiled, instructions, cursor) && |compiled| == |headers|
    ensures HeaderRun(compiled) == Headers(headers) && Payloads(compiled) == message[start..cursor]
    ensures AllResolved(keys, compiled, instructions)
    ensures forall wanted :: Reads(message, start, headers, keys, wanted) ==> compiled == wanted
  {
    assert headers[..|headers|] == headers;
    ForcedWhole(message, start, headers, keys, compiled);
  }

  /** The payloads of the given headers: refused only when the bytes spell nothing, and otherwise the
      only list that they spell. */
  method ReadPayloads(message: seq<nat>, start: nat, headers: seq<Header>, keys: seq<Key>)
    returns (ok: bool, instructions: seq<Instruction>, cursor: nat, ghost compiled: seq<Compiled>)
    requires Bytes(message) && start <= |message|
    ensures ok ==> start <= cursor <= |message| && |compiled| == |headers| && AllResolved(keys, compiled, instructions)
    ensures ok ==> HeaderRun(compiled) == Headers(headers) && Payloads(compiled) == message[start..cursor]
    ensures ok ==> forall wanted :: Reads(message, start, headers, keys, wanted) ==> compiled == wanted
    ensures !ok ==> NoneReads(message, start, headers, keys)
  {
    hide HeaderBytes, Resolve, Reads, NoneReads, InRange, Payloads, HeaderRun, Headers, Forced, ReadSoFar, AllResolved;
    instructions, cursor, compiled := [], start, [];
    Starting(message, start, headers, keys);
    for index := 0 to |headers|
      invariant |instructions| == |compiled| == index && start <= cursor <= |message|
      invariant ReadSoFar(message, start, headers, keys, compiled, instructions, cursor)
    {
      var h := headers[index];
      ReadOn(message, start, headers, keys, compiled, instructions, cursor);
      if cursor + h.accountCount + h.dataLength > |message| {
        return false, [], cursor, [];
      }
      var accounts := message[cursor..cursor + h.accountCount];
      var data := message[cursor + h.accountCount..cursor + h.accountCount + h.dataLength];
      var c := Compiled(h.program, accounts, data);
      if !InRange(keys, c) {
        return false, [], cursor, [];
      }
      compiled := compiled + [c];
      instructions := instructions + [Resolve(keys, c)];
      cursor := cursor + h.accountCount + h.dataLength;
    }
    ok := true;
    ReadWhole(message, start, headers, keys, compiled, instructions, cursor);
  }

  // ---------------------------------------------------------------- completeness

  /** What the fixed-size parts of an accepted message look like. */
  predicate HeadOk(message: seq<nat>) {
    && |message| >= 42 && message[0] == 0x81 && MaskOk(Le(message[4..8]))
    && 0 < message[41] <= 96 && 0 < message[40] <= 64 && PayloadStart(message) <= |message|
  }

  function ConfigStart(message: seq<nat>): nat
    requires |message| >= 42
  {
    42 + 32 * message[41]
  }

  function HeaderStart(message: seq<nat>): nat
    requires |message| >= 42
  {
    ConfigStart(message) + ConfigSize(Le(message[4..8]))
  }

  function PayloadStart(message: seq<nat>): nat
    requires |message| >= 42
  {
    HeaderStart(message) + 4 * message[40]
  }

  /** Where the runs of a layout with known sizes lie. */
  lemma LayoutRuns(s: seq<nat>, lead: seq<nat>, mask: seq<nat>, blockhash: seq<nat>, counts: seq<nat>, keys: seq<nat>,
                   config: seq<nat>, headers: seq<nat>, payloads: seq<nat>, a: nat, b: nat, c: nat)
    requires s == Layout(lead, mask, blockhash, counts, keys, config, headers, payloads)
    requires |lead| == 4 && |mask| == 4 && |blockhash| == 32 && |counts| == 2
    requires a == 42 + |keys| && b == a + |config| && c == b + |headers|
    ensures c <= |s| && s[..4] == lead && s[4..8] == mask && s[8..40] == blockhash && s[40..42] == counts
    ensures s[42..a] == keys && s[a..b] == config && s[b..c] == headers && s[c..] == payloads
  {
  }

  lemma LeadBytes(s: seq<nat>, lead: seq<nat>, counts: seq<nat>)
    requires |s| >= 42 && |lead| == 4 && |counts| == 2 && s[..4] == lead && s[40..42] == counts
    ensures s[0] == lead[0] && s[1] == lead[1] && s[2] == lead[2] && s[3] == lead[3] && s[40] == counts[0] && s[41] == counts[1]
  {
    assert s[40..42][0] == s[40] && s[40..42][1] == s[41];
  }

  lemma EncodingRuns(message: seq<nat>, m: Message, mask: nat, config: seq<nat>)
    requires IsEncoding(message, m, mask, config)
    ensures HeadOk(message) && mask == Le(message[4..8]) && m.blockhash == message[8..40]
    ensures m.requiredSignatures == message[1] && m.readonlySigned == message[2] && m.readonlyUnsigned == message[3]
    ensures |m.instructions| == message[40] && |m.keys| == message[41]
    ensures Concat(m.keys) == message[42..ConfigStart(message)] && config == message[ConfigStart(message)..HeaderStart(message)]
    ensures HeaderRun(CompileAll(m.keys, m.instructions)) == message[HeaderStart(message)..PayloadStart(message)]
    ensures Payloads(CompileAll(m.keys, m.instructions)) == message[PayloadStart(message)..]
  {
    hide Concat, HeaderRun, Payloads, Le, LeBytes, Distinct, Resolvable, Layout, ConfigSize;
    var compiled := CompileAll(m.keys, m.instructions);
    ConcatSize(m.keys);
    HeaderRunSize(compiled);
    MaskValue(mask);
    var lead, counts := [0x81, m.requiredSignatures, m.readonlySigned, m.readonlyUnsigned], [|m.instructions|, |m.keys|];
    var a := 42 + 32 * |m.keys|;
    var b := a + |config|;
    LayoutRuns(message, lead, LeBytes(mask, 4), m.blockhash, counts, Concat(m.keys), config, HeaderRun(compiled),
               Payloads(compiled), a, b, b + 4 * |m.instructions|);
    LeadBytes(message, lead, counts);
  }

  lemma {:induction false} MaskValue(mask: nat)
    requires MaskOk(mask)
    ensures Le(LeBytes(mask, 4)) == mask
  {
    assert Pow256(4) == 0x1_0000_0000;
    LeBytesValue(mask, 4);
  }

  lemma {:induction false} ConcatInjective(keys: seq<Key>, other: seq<Key>)
    requires |keys| == |other| && Concat(keys) == Concat(other)
    requires forall i :: 0 <= i < |keys| ==> |keys[i]| == 32 && |other[i]| == 32
    ensures keys == other
  {
    if keys != [] {
      var n := |keys| - 1;
      AppendInjective(Concat(keys[..n]), keys[n], Concat(other[..n]), other[n]);
      ConcatInjective(keys[..n], other[..n]);
      assert keys == keys[..n] + [keys[n]] && other == other[..n] + [other[n]];
    }
  }

  lemma ResolveCompile(keys: seq<Key>, i: Instruction)
    requires Resolvable(keys, i)
    ensures InRange(keys, Compile(keys, i)) && Resolve(keys, Compile(keys, i)) == i
  {
    assert KeysAt(keys, IndicesIn(keys, i.accounts)) == i.accounts;
  }

  lemma {:induction false} CompiledResolved(keys: seq<Key>, list: seq<Instruction>)
    requires forall i :: 0 <= i < |list| ==> Resolvable(keys, list[i])
    ensures AllResolved(keys, CompileAll(keys, list), list)
  {
    hide Resolvable, Compile, Resolve, InRange;
    forall i | 0 <= i < |list|
      ensures InRange(keys, CompileAll(keys, list)[i]) && Resolve(keys, CompileAll(keys, list)[i]) == list[i]
    {
      ResolveCompile(keys, list[i]);
    }
  }

  lemma SameInstructions(keys: seq<Key>, compiled: seq<Compiled>, a: seq<Instruction>, b: seq<Instruction>)
    requires AllResolved(keys, compiled, a) && AllResolved(keys, compiled, b)
    ensures a == b
  {
    hide InRange, Resolve;
  }

  /** Whatever encodes to the message has the keys that were read, and its payloads follow the headers. */
  lemma {:induction false} EncodingReads(message: seq<nat>, m: Message, mask: nat, config: seq<nat>, keys: seq<Key>, headers: seq<Header>)
    requires IsEncoding(message, m, mask, config) && HeadOk(message)
    requires |keys| == message[41] && (forall i :: 0 <= i < |keys| ==> |keys[i]| == 32)
    requires Concat(keys) == message[42..ConfigStart(message)]
    requires Headers(headers) == message[HeaderStart(message)..PayloadStart(message)]
    ensures m.keys == keys && Distinct(keys) && AllResolved(keys, CompileAll(m.keys, m.instructions), m.instructions)
    ensures Reads(message, PayloadStart(message), headers, keys, CompileAll(m.keys, m.instructions))
    ensures Payloads(CompileAll(m.keys, m.instructions)) == message[PayloadStart(message)..]
  {
    hide Concat, HeaderRun, Headers, Payloads, Le, Resolvable, Layout, ConfigSize, Encode, InRange, Resolve;
    EncodingRuns(message, m, mask, config);
    ConcatInjective(m.keys, keys);
    CompiledResolved(m.keys, m.instructions);
  }

  /** `_parse_solana_v1_message`: it accepts exactly the byte strings that encode a well-formed message,
      and returns the only message they encode. */
  method Parse(message: seq<nat>) returns (r: Option<Message>)
    requires Bytes(message)
    ensures r.Some? ==> exists mask, config :: IsEncoding(message, r.value, mask, config)
    ensures forall m, mask, config :: IsEncoding(message, m, mask, config) ==> r == Some(m)
  {
    hide Le, Concat, Headers, Payloads, Resolve, InRange, HeaderRun, IsEncoding, NoneReads, Reads, AllResolved, Distinct, KeySet;
    NeedsHead(message);
    if |message| < 42 || message[0] != 0x81 {
      return None;
    }
    var configMask := Le(message[4..8]);
    if !(configMask < 32) || !(configMask % 4 == 0 || configMask % 4 == 3) || configMask / 4 % 4 != 3 {
      return None;
    }
    var instructionCount, accountCount := message[40], message[41];
    if accountCount == 0 || accountCount > 96 || instructionCount == 0 || instructionCount > 64 {
      return None;
    }
    var cursor := 42 + accountCount * 32;
    if cursor > |message| {
      return None;
    }
    var keys := ReadKeys(message, 42, accountCount);
    var configBytes := ConfigSize(configMask);
    if cursor + configBytes + instructionCount * 4 > |message| {
      return None;
    }
    var headers, afterHeaders := ReadHeaders(message, cursor + configBytes, instructionCount);
    var ok, instructions, end, compiled := ReadPayloads(message, afterHeaders, headers, keys);
    OnlyReading(message, keys, headers, ok, compiled, instructions, end);
    DistinctIffCount(keys);
    if !ok || end != |message| || |KeySet(keys)| != |keys| {
      return None;
    }
    ParsedIsEncoding(message, keys, compiled, instructions);
    r := Some(Message(message[1], message[2], message[3], keys, message[8..40], instructions));
  }

  lemma NeedsHead(message: seq<nat>)
    ensures forall m, k, c :: IsEncoding(message, m, k, c) ==> HeadOk(message)
  {
    hide IsEncoding, HeadOk;
    forall m, k, c | IsEncoding(message, m, k, c) ensures HeadOk(message) {
      EncodingRuns(message, m, k, c);
    }
  }

  /** The message that the parts which were read make up. */
  function Assembled(message: seq<nat>, keys: seq<Key>, instructions: seq<Instruction>): Message
    requires |message| >= 42
  {
    Message(message[1], message[2], message[3], keys, message[8..40], instructions)
  }

  ghost predicate SameParts(message: seq<nat>, keys: seq<Key>, instructions: seq<Instruction>, m: Message, k: nat, c: seq<nat>)
    requires HeadOk(message)
  {
    && Distinct(keys) && m == Assembled(message, keys, instructions) && k == Le(message[4..8])
    && c == message[ConfigStart(message)..HeaderStart(message)]
  }

  /** Whatever encodes to the message is what was read. */
  lemma {:induction false} OnlyReading(message: seq<nat>, keys: seq<Key>, headers: seq<Header>, ok: bool, compiled: seq<Compiled>,
                    instructions: seq<Instruction>, end: nat)
    requires HeadOk(message) && |keys| == message[41] && (forall i :: 0 <= i < |keys| ==> |keys[i]| == 32)
    requires Concat(keys) == message[42..ConfigStart(message)]
    requires Headers(headers) == message[HeaderStart(message)..PayloadStart(message)]
    requires !ok ==> NoneReads(message, PayloadStart(message), headers, keys)
    requires ok ==> PayloadStart(message) <= end <= |message| && Payloads(compiled) == message[PayloadStart(message)..end]
    requires ok ==> AllResolved(keys, compiled, instructions)
    requires ok ==> forall wanted :: Reads(message, PayloadStart(message), headers, keys, wanted) ==> compiled == wanted
    ensures forall m, k, c :: IsEncoding(message, m, k, c) ==>
      ok && end == |message| && SameParts(message, keys, instructions, m, k, c)
  {
    hide IsEncoding, Concat, Headers, HeaderRun, Payloads, Reads, AllResolved, Distinct, Le, ConfigSize;
    forall m, k, c | IsEncoding(message, m, k, c)
      ensures ok && end == |message| && SameParts(message, keys, instructions, m, k, c)
    {
      EncodingRuns(message, m, k, c);
      EncodingReads(message, m, k, c, keys, headers);
      var wanted := CompileAll(m.keys, m.instructions);
      assert ok && compiled == wanted;
      assert |message[PayloadStart(message)..end]| == |message[PayloadStart(message)..]|;
      SameInstructions(keys, compiled, m.instructions, instructions);
    }
  }

  /** The runs of a message, put back together. */
  lemma {:induction false} ParsedIsEncoding(message: seq<nat>, keys: seq<Key>, compiled: seq<Compiled>, instructions: seq<Instruction>)
    requires Bytes(message) && HeadOk(message) && Distinct(keys)
    requires |keys| == message[41] && (forall i :: 0 <= i < |keys| ==> |keys[i]| == 32) && |compiled| == message[40]
    requires Concat(keys) == message[42..ConfigStart(message)]
    requires HeaderRun(compiled) == message[HeaderStart(message)..PayloadStart(message)]
    requires Payloads(compiled) == message[PayloadStart(message)..]
    requires AllResolved(keys, compiled, instructions)
    ensures IsEncoding(message, Assembled(message, keys, instructions), Le(message[4..8]),
                       message[ConfigStart(message)..HeaderStart(message)])
  {
    hide Concat, Payloads, LeBytes, Le, Distinct, InRange, Resolve, Resolvable, Layout, CompileAll, HeaderRun;
    CompiledBack(keys, instructions, compiled);
    MaskBytes(message[4..8]);
    Reassemble(message, ConfigStart(message), HeaderStart(message), PayloadStart(message));
  }

  lemma {:induction false} CompiledBack(keys: seq<Key>, list: seq<Instruction>, compiled: seq<Compiled>)
    requires Distinct(keys) && AllResolved(keys, compiled, list)
    ensures forall i :: 0 <= i < |list| ==> Resolvable(keys, list[i])
    ensures CompileAll(keys, list) == compiled
  {
    hide Distinct, Resolvable, Compile, Resolve;
    forall i | 0 <= i < |list| ensures Resolvable(keys, list[i]) && Compile(keys, list[i]) == compiled[i] {
      CompileResolve(keys, compiled[i]);
    }
  }

  lemma {:induction false} MaskBytes(b: seq<nat>)
    requires |b| == 4 && Bytes(b)
    ensures LeBytes(Le(b), 4) == b
  {
    LeBytesOfValue(b);
  }

  lemma Reassemble(s: seq<nat>, a: nat, b: nat, c: nat)
    requires 42 <= a <= b <= c <= |s|
    ensures s == Layout([s[0], s[1], s[2], s[3]], s[4..8], s[8..40], [s[40], s[41]], s[42..a], s[a..b], s[b..c], s[c..])
  {
  }

  // -------------------------------------------------------------- byte positions

  lemma {:induction false} ConcatAt(keys: seq<Key>, i: nat)
    requires i < |keys| && forall j :: 0 <= j < |keys| ==> |keys[j]| == 32
    ensures |Concat(keys)| == 32 * |keys| && Concat(keys)[32 * i..32 * i + 32] == keys[i]
  {
    var n := |keys| - 1;
    ConcatSize(keys[..n]);
    if i < n {
      ConcatAt(keys[..n], i);
      PrefixSlice(Concat(keys[..n]), keys[n], 32 * i, 32 * i + 32);
    }
  }

  lemma PrefixSlice(a: seq<nat>, b: seq<nat>, i: nat, j: nat)
    requires i <= j <= |a|
    ensures (a + b)[i..j] == a[i..j]
  {
  }

  lemma SuffixSlice(a: seq<nat>, b: seq<nat>, c: seq<nat>)
    ensures (a + (b + c))[|a|..|a| + |b|] == b && (a + (b + c))[|a| + |b|..|a| + |b| + |c|] == c
  {
  }

  lemma {:induction false} HeaderRunAt(cs: seq<Compiled>, i: nat)
    requires i < |cs|
    ensures |HeaderRun(cs)| == 4 * |cs| && HeaderRun(cs)[4 * i..4 * i + 4] == HeaderBytes(HeaderOf(cs[i]))
  {
    hide HeaderBytes, HeaderOf;
    HeaderRunSize(cs);
    var n := |cs| - 1;
    HeaderRunSize(cs[..n]);
    FourHeaderBytes(HeaderOf(cs[n]));
    if i < n {
      HeaderRunAt(cs[..n], i);
      PrefixSlice(HeaderRun(cs[..n]), HeaderBytes(HeaderOf(cs[n])), 4 * i, 4 * i + 4);
    }
  }

  lemma FourHeaderBytes(h: Header)
    ensures |HeaderBytes(h)| == 4
  {
  }

  lemma {:induction false} PayloadsAt(cs: seq<Compiled>, i: nat)
    requires i < |cs|
    ensures var o, x, y := |Payloads(cs[..i])|, |cs[i].accounts|, |cs[i].data|;
      && o + x + y <= |Payloads(cs)|
      && Payloads(cs)[o..o + x] == cs[i].accounts && Payloads(cs)[o + x..o + x + y] == cs[i].data
  {
    var n := |cs| - 1;
    if i < n {
      PayloadsAt(cs[..n], i);
      assert cs[..n][..i] == cs[..i];
      var o, x, y := |Payloads(cs[..i])|, |cs[i].accounts|, |cs[i].data|;
      PrefixSlice(Payloads(cs[..n]), cs[n].accounts + cs[n].data, o, o + x);
      PrefixSlice(Payloads(cs[..n]), cs[n].accounts + cs[n].data, o + x, o + x + y);
    } else {
      SuffixSlice(Payloads(cs[..n]), cs[n].accounts, cs[n].data);
    }
  }

  /** Where a well-formed message has its keys: from byte 42 on, 32 bytes each. */
  lemma KeyBytes(message: seq<nat>, m: Message, mask: nat, config: seq<nat>, i: nat)
    requires IsEncoding(message, m, mask, config) && i < |m.keys|
    ensures |message| >= 42 && |m.keys| == message[41] && 42 + 32 * i + 32 <= |message|
    ensures m.keys[i] == message[42 + 32 * i..42 + 32 * i + 32]
  {
    hide IsEncoding, Concat, HeaderRun, Payloads, Le, ConfigSize, HeadOk, CompileAll;
    EncodingRuns(message, m, mask, config);
    KeySizes(message, m, mask, config);
    ConcatAt(m.keys, i);
    RunFits(message, m, mask, config);
    PartOfRun(message, 42, ConfigStart(message), Concat(m.keys), 32 * i, 32 * i + 32);
  }

  /** A part of a run is at the shifted position of the message. */
  lemma PartOfRun(s: seq<nat>, a: nat, b: nat, run: seq<nat>, i: nat, j: nat)
    requires a <= b <= |s| && i <= j <= |run| && run == s[a..b]
    ensures a + j <= |s| && s[a + i..a + j] == run[i..j]
  {
    SubSlice(s, a, b, i, j);
  }

  /** And its instruction headers: program index, account count, and the data length with its low byte first. */
  lemma InstructionHeaderBytes(message: seq<nat>, m: Message, mask: nat, config: seq<nat>, i: nat)
    requires IsEncoding(message, m, mask, config) && Bytes(message) && i < |m.instructions|
    ensures |message| >= 42 && |m.instructions| == message[40] && HeaderStart(message) + 4 * i + 4 <= |message|
    ensures var h := HeaderStart(message) + 4 * i;
      && message[h] < |m.keys| && m.keys[message[h]] == m.instructions[i].program
      && message[h + 1] == |m.instructions[i].accounts|
      && Le(message[h + 2..h + 4]) == |m.instructions[i].data|
  {
    hide IsEncoding, HeaderRun, Concat, Payloads, ConfigSize, CompileAll, Le, HeaderBytes, HeaderOf, HeaderAt;
    EncodingRuns(message, m, mask, config);
    IsResolvable(message, m, mask, config);
    var compiled := CompileAll(m.keys, m.instructions);
    CompiledSizes(m.keys, m.instructions, i);
    var h := HeaderStart(message) + 4 * i;
    HeaderInRun(message, HeaderStart(message), PayloadStart(message), compiled, i);
    HeaderAtIs(message, h);
    HeaderOfIs(compiled[i]);
  }

  lemma KeySizes(message: seq<nat>, m: Message, mask: nat, config: seq<nat>)
    requires IsEncoding(message, m, mask, config)
    ensures forall i :: 0 <= i < |m.keys| ==> |m.keys[i]| == 32
  {
    hide Resolvable, Encode;
  }

  lemma RunFits(message: seq<nat>, m: Message, mask: nat, config: seq<nat>)
    requires IsEncoding(message, m, mask, config)
    ensures |message| >= 42 && 42 <= ConfigStart(message) <= |message|
  {
    EncodingRuns(message, m, mask, config);
    hide IsEncoding, Le;
  }

  lemma IsResolvable(message: seq<nat>, m: Message, mask: nat, config: seq<nat>)
    requires IsEncoding(message, m, mask, config)
    ensures forall i :: 0 <= i < |m.instructions| ==> Resolvable(m.keys, m.instructions[i])
  {
    hide Resolvable, Encode;
  }

  lemma HeaderOfIs(c: Compiled)
    ensures HeaderOf(c) == Header(c.program, |c.accounts|, |c.data|)
  {
  }

  lemma {:induction false} HeaderInRun(message: seq<nat>, a: nat, b: nat, cs: seq<Compiled>, i: nat)
    requires a <= b <= |message| && i < |cs| && HeaderRun(cs) == message[a..b]
    ensures a + 4 * i + 4 <= |message| && HeaderAt(message, a + 4 * i) == HeaderOf(cs[i])
  {
    hide HeaderRun, HeaderOf, HeaderBytes;
    HeaderRunAt(cs, i);
    PartOfRun(message, a, b, HeaderRun(cs), 4 * i, 4 * i + 4);
    HeaderFromBytes(message, a + 4 * i, HeaderOf(cs[i]));
  }

  lemma HeaderFromBytes(message: seq<nat>, h: nat, header: Header)
    requires h + 4 <= |message| && message[h..h + 4] == HeaderBytes(header)
    ensures HeaderAt(message, h) == header
  {
    hide Le;
    var four := message[h..h + 4];
    assert four[0] == message[h] && four[1] == message[h + 1] && four[2] == message[h + 2] && four[3] == message[h + 3];
    LeOfTwo(message[h + 2..h + 4]);
  }

  lemma {:induction false} CompiledSizes(keys: seq<Key>, list: seq<Instruction>, i: nat)
    requires (forall j :: 0 <= j < |list| ==> Resolvable(keys, list[j])) && i < |list|
    ensures var c := CompileAll(keys, list)[i];
      && c.program < |keys| && keys[c.program] == list[i].program && |c.accounts| == |list[i].accounts| && c.data == list[i].data
      && forall k :: 0 <= k < |c.accounts| ==> c.accounts[k] < |keys| && keys[c.accounts[k]] == list[i].accounts[k]
  {
  }

  /** And each payload: one byte per account, then the data, instruction after instruction. */
  lemma InstructionPayloadBytes(message: seq<nat>, m: Message, mask: nat, config: seq<nat>, i: nat)
    requires IsEncoding(message, m, mask, config) && i < |m.instructions|
    ensures |message| >= 42 && PayloadStart(message) <= |message|
    ensures var o := PayloadStart(message) + PayloadSize(m.instructions[..i]);
      var x, y := |m.instructions[i].accounts|, |m.instructions[i].data|;
      && o + x + y <= |message| && m.instructions[i].data == message[o + x..o + x + y]
      && var indices := message[o..o + x];
         forall k :: 0 <= k < x ==> indices[k] < |m.keys| && m.keys[indices[k]] == m.instructions[i].accounts[k]
  {
    hide IsEncoding, HeaderRun, Concat, Payloads, ConfigSize, CompileAll, Le, Resolvable, PayloadSize;
    EncodingRuns(message, m, mask, config);
    IsResolvable(message, m, mask, config);
    var compiled := CompileAll(m.keys, m.instructions);
    CompiledSizes(m.keys, m.instructions, i);
    CompiledFront(m.keys, m.instructions, i);
    PayloadsSize(m.keys, m.instructions[..i]);
    PayloadInRun(message, PayloadStart(message), compiled, i);
  }

  lemma {:induction false} PayloadInRun(message: seq<nat>, a: nat, cs: seq<Compiled>, i: nat)
    requires a <= |message| && i < |cs| && Payloads(cs) == message[a..]
    ensures var o, x, y := a + |Payloads(cs[..i])|, |cs[i].accounts|, |cs[i].data|;
      o + x + y <= |message| && cs[i].accounts == message[o..o + x] && cs[i].data == message[o + x..o + x + y]
  {
    hide Payloads;
    PayloadsAt(cs, i);
    var o, x, y := |Payloads(cs[..i])|, |cs[i].accounts|, |cs[i].data|;
    assert message[a..|message|] == message[a..];
    var p := |Payloads(cs[..i])|;
    PartOfRun(message, a, |message|, Payloads(cs), p, p + x);
    PartOfRun(message, a, |message|, Payloads(cs), p + x, p + x + y);
  }

  lemma {:induction false} CompiledFront(keys: seq<Key>, list: seq<Instruction>, i: nat)
    requires (forall j :: 0 <= j < |list| ==> Resolvable(keys, list[j])) && i <= |list|
    ensures forall j :: 0 <= j < |list[..i]| ==> Resolvable(keys, list[..i][j])
    ensures CompileAll(keys, list)[..i] == CompileAll(keys, list[..i])
  {
    hide Resolvable, Compile;
  }

  // ------------------------------------------------------------------------ size

  lemma {:induction false} ConcatSize(keys: seq<Key>)
    requires forall i :: 0 <= i < |keys| ==> |keys[i]| == 32
    ensures |Concat(keys)| == 32 * |keys|
  {
    if keys != [] {
      ConcatSize(keys[..|keys| - 1]);
    }
  }

  lemma {:induction false} HeaderRunSize(cs: seq<Compiled>)
    ensures |HeaderRun(cs)| == 4 * |cs|
  {
    if cs != [] {
      HeaderRunSize(cs[..|cs| - 1]);
    }
  }

  function PayloadSize(list: seq<Instruction>): nat {
    if list == [] then 0 else PayloadSize(list[..|list| - 1]) + |list[|list| - 1].accounts| + |list[|list| - 1].data|
  }

  lemma {:induction false} PayloadsSize(keys: seq<Key>, list: seq<Instruction>)
    requires forall i :: 0 <= i < |list| ==> Resolvable(keys, list[i])
    ensures |Payloads(CompileAll(keys, list))| == PayloadSize(list)
  {
    if list != [] {
      var front := list[..|list| - 1];
      PayloadsSize(keys, front);
      assert CompileAll(keys, list)[..|list| - 1] == CompileAll(keys, front);
    }
  }

  lemma EncodedSize(m: Message, mask: nat, config: seq<nat>)
    requires WellFormed(m, mask, config)
    ensures |Encode(m, mask, config)| == 42 + 32 * |m.keys| + ConfigSize(mask) + 4 * |m.instructions| + PayloadSize(m.instructions)
  {
    ConcatSize(m.keys);
    HeaderRunSize(CompileAll(m.keys, m.instructions));
    PayloadsSize(m.keys, m.instructions);
  }

  /** The Borsh arguments of the credit authorization, by field. */
  datatype CreditArgs = CreditArgs(
    authorizationDigest: seq<nat>, validAfterSlot: seq<nat>, expiresAtSlot: seq<nat>, previousTcapRoot: seq<nat>,
    tcapRootSequence: seq<nat>, tokenId: seq<nat>, amountBaseUnits: seq<nat>, nullifier: seq<nat>, publicInputs: seq<nat>,
    proof: seq<nat>, actionKind: nat, proofTokenId: seq<nat>, proofAmount: seq<nat>, authorizationCommitment: seq<nat>)

  predicate ArgsOk(a: CreditArgs) {
    && |a.authorizationDigest| == 32 && |a.validAfterSlot| == 8 && |a.expiresAtSlot| == 8 && |a.previousTcapRoot| == 32
    && |a.tcapRootSequence| == 8 && |a.tokenId| == 4 && |a.amountBaseUnits| == 8 && |a.nullifier| == 32
    && |a.publicInputs| == 12 * 32 && |a.proof| == 64 + 128 + 64
    && |a.proofTokenId| == 4 && |a.proofAmount| == 8 && |a.authorizationCommitment| == 32
  }

  function ArgBytes(a: CreditArgs): seq<nat> {
    a.authorizationDigest + a.validAfterSlot + a.expiresAtSlot + a.previousTcapRoot + a.tcapRootSequence + a.tokenId
    + a.amountBaseUnits + a.nullifier + a.publicInputs + a.proof + [a.actionKind] + a.proofTokenId + a.proofAmount
    + a.authorizationCommitment
  }

  function EarlyArgs(a: CreditArgs): seq<nat> {
    a.authorizationDigest + a.validAfterSlot + a.expiresAtSlot + a.previousTcapRoot + a.tcapRootSequence + a.tokenId
    + a.amountBaseUnits
  }

  function LateArgs(a: CreditArgs): seq<nat> {
    a.nullifier + a.publicInputs + a.proof + [a.actionKind] + a.proofTokenId + a.proofAmount + a.authorizationCommitment
  }

  lemma ArgsSplit(a: CreditArgs)
    ensures ArgBytes(a) == EarlyArgs(a) + LateArgs(a)
  {
  }

  lemma EarlyArgPositions(a: CreditArgs)
    requires ArgsOk(a)
    ensures var b := EarlyArgs(a);
      && |b| == 100 && b[..32] == a.authorizationDigest && b[32..40] == a.validAfterSlot && b[40..48] == a.expiresAtSlot
      && b[48..80] == a.previousTcapRoot && b[80..88] == a.tcapRootSequence && b[88..92] == a.tokenId
      && b[92..100] == a.amountBaseUnits
  {
  }

  lemma LateArgPositions(a: CreditArgs)
    requires ArgsOk(a)
    ensures var b := LateArgs(a);
      && |b| == 717 && b[..32] == a.nullifier && b[32..416] == a.publicInputs && b[416..672] == a.proof && b[672] == a.actionKind
      && b[673..677] == a.proofTokenId && b[677..685] == a.proofAmount && b[685..717] == a.authorizationCommitment
  {
  }

  /** Where the credit instruction has its arguments: 817 bytes in all. */
  lemma ArgPositions(a: CreditArgs)
    requires ArgsOk(a)
    ensures |ArgBytes(a)| == 817 && ArgBytes(a)[..100] == EarlyArgs(a) && ArgBytes(a)[100..] == LateArgs(a)
  {
    ArgsSplit(a);
    EarlyArgPositions(a);
    LateArgPositions(a);
  }

  /** `_tcap_credit_v1_wire_size`. */
  function WireSize(memoLength: nat): nat {
    var instructionBytes := 8 + 32 + 8 + 8 + 32 + 8 + 4 + 8 + 32 + 12 * 32 + 64 + 128 + 64 + 1 + 4 + 8 + 32;
    42 + 15 * 32 + 2 * 4 + 2 * 4 + 13 + 1 + instructionBytes + memoLength + 2 * 64
  }

  /** The transition that the Node verified, as the Mother check turns it into keys and bytes. */
  datatype Settlement = Settlement(
    operator: Key, program: Key, accounts: seq<Key>, discriminator: seq<nat>, args: CreditArgs, memoProgram: Key, memo: seq<nat>)

  /** Thirteen accounts, of which the first is the Mother authority, together with the Cranker and the
      Memo program: fifteen distinct keys. */
  predicate SettlementOk(e: Settlement) {
    |e.accounts| == 13 && |e.discriminator| == 8 && ArgsOk(e.args) && Distinct([e.operator, e.memoProgram] + e.accounts)
  }

  const SIZE_LIMIT := 4096
  const COMMITMENT_ROOT := 6
  const RESERVE_STATE := 7

  function WritableUnsigned(m: Message): int {
    |m.keys| - m.requiredSignatures - m.readonlyUnsigned
  }

  /** What the Mother check demands of a parsed message. */
  predicate MotherAccepts(message: seq<nat>, m: Message, e: Settlement)
    requires |e.accounts| == 13
  {
    && |message| + m.requiredSignatures * 64 <= SIZE_LIMIT
    && m.requiredSignatures == 2 && m.readonlySigned == 0 && |m.keys| >= 2
    && m.keys[0] == e.operator && m.keys[1] == e.accounts[0]
    && (exists i :: 0 <= i < |m.blockhash| && m.blockhash[i] != 0)
    && m.instructions == [Instruction(e.program, e.accounts, e.discriminator + ArgBytes(e.args)),
                          Instruction(e.memoProgram, [e.operator], e.memo)]
    && KeySet(m.keys) == KeySet([e.operator, e.memoProgram] + e.accounts)
    && 0 <= WritableUnsigned(m)
    && KeySet(m.keys[2..2 + WritableUnsigned(m)]) == {e.accounts[COMMITMENT_ROOT], e.accounts[RESERVE_STATE]}
  }

  /** `_verify_mother_signed_tcap_settlement_message`: the recent blockhash, exactly for the encodings of messages that
      pass every test. */
  method CheckSettlement(message: seq<nat>, e: Settlement) returns (r: Option<seq<nat>>)
    requires Bytes(message) && |e.accounts| == 13
    ensures r.Some? ==> exists m, mask, config :: IsEncoding(message, m, mask, config) && MotherAccepts(message, m, e) && m.blockhash == r.value
    ensures r.None? ==> forall m, mask, config :: IsEncoding(message, m, mask, config) ==> !MotherAccepts(message, m, e)
  {
    hide IsEncoding, ArgBytes, KeySet;
    var parsed := Parse(message);
    if parsed.None? {
      return None;
    }
    var m := parsed.value;
    if |message| + m.requiredSignatures * 64 > 4096 {
      return None;
    }
    if m.requiredSignatures != 2 || m.readonlySigned != 0 || |m.keys| < m.requiredSignatures {
      return None;
    }
    if m.keys[0] != e.operator || m.keys[1] != e.accounts[0] {
      return None;
    }
    if forall i :: 0 <= i < |m.blockhash| ==> m.blockhash[i] == 0 {
      return None;
    }
    var expected := [Instruction(e.program, e.accounts, e.discriminator + ArgBytes(e.args)),
                     Instruction(e.memoProgram, [e.operator], e.memo)];
    if m.instructions != expected || KeySet(m.keys) != KeySet([e.operator, e.memoProgram] + e.accounts) {
      return None;
    }
    var writable: int := |m.keys| - m.requiredSignatures - m.readonlyUnsigned;
    if writable < 0 || KeySet(m.keys[m.requiredSignatures..m.requiredSignatures + writable]) != {e.accounts[6], e.accounts[7]} {
      return None;
    }
    r := Some(m.blockhash);
  }

  /** The capacity formula is exact for every settlement message the Mother accepts with 15 distinct
      keys, up to the optional config values that it does not count. */
  lemma WireSizeIsExact(message: seq<nat>, m: Message, mask: nat, config: seq<nat>, e: Settlement)
    requires IsEncoding(message, m, mask, config) && SettlementOk(e) && MotherAccepts(message, m, e)
    ensures |message| + 2 * 64
         == WireSize(|e.memo|) + (if mask % 4 == 3 then 8 else 0) + (if mask / 16 == 1 then 4 else 0)
  {
    hide Distinct, Encode;
    EncodedSize(m, mask, config);
    DistinctIffCount(m.keys);
    DistinctIffCount([e.operator, e.memoProgram] + e.accounts);
    TwoInstructions(m.instructions);
    MaskCases(mask);
  }

  /** An accepted settlement message can write to the two signers and the two TCAP accounts only. */
  lemma OnlyFourWritableKeys(message: seq<nat>, m: Message, mask: nat, config: seq<nat>, e: Settlement)
    requires IsEncoding(message, m, mask, config) && SettlementOk(e) && MotherAccepts(message, m, e)
    ensures |m.keys| == 15 && m.readonlyUnsigned == 11 && WritableUnsigned(m) == 2
    ensures KeySet(m.keys[..4]) == {e.operator, e.accounts[0], e.accounts[COMMITMENT_ROOT], e.accounts[RESERVE_STATE]}
  {
    hide Encode, ArgBytes, ArgsOk, Distinct, KeySet;
    var all := [e.operator, e.memoProgram] + e.accounts;
    DistinctIffCount(m.keys);
    DistinctIffCount(all);
    DifferentAt(all, 8, 9);
    WindowOfTwo(m.keys, WritableUnsigned(m), all[8], all[9]);
  }

  lemma DifferentAt(keys: seq<Key>, i: nat, j: nat)
    requires Distinct(keys) && i < j < |keys|
    ensures keys[i] != keys[j]
  {
  }

  lemma WindowOfTwo(keys: seq<Key>, n: nat, a: Key, b: Key)
    requires Distinct(keys) && 2 + n <= |keys| && KeySet(keys[2..2 + n]) == {a, b} && a != b
    ensures n == 2 && KeySet(keys[..4]) == {keys[0], keys[1], a, b}
  {
    hide Distinct, KeySet;
    WindowDistinct(keys, 2, 2 + n);
    DistinctIffCount(keys[2..2 + n]);
    FirstFour(keys, a, b);
  }

  lemma WindowDistinct(keys: seq<Key>, i: nat, j: nat)
    requires Distinct(keys) && i <= j <= |keys|
    ensures Distinct(keys[i..j])
  {
  }

  lemma KeySetAppend(keys: seq<Key>, more: seq<Key>)
    ensures KeySet(keys + more) == KeySet(keys) + KeySet(more)
  {
  }

  lemma FirstFour(keys: seq<Key>, a: Key, b: Key)
    requires 4 <= |keys| && KeySet(keys[2..4]) == {a, b}
    ensures KeySet(keys[..4]) == {keys[0], keys[1], a, b}
  {
    var signers := [keys[0], keys[1]];
    assert keys[..4] == signers + keys[2..4];
    assert KeySet(signers) == {signers[0], signers[1]};
    hide KeySet;
    KeySetAppend(signers, keys[2..4]);
  }

  lemma {:induction false} TwoInstructions(list: seq<Instruction>)
    requires |list| == 2
    ensures PayloadSize(list) == |list[0].accounts| + |list[0].data| + |list[1].accounts| + |list[1].data|
  {
    assert list[..1][..0] == [] && PayloadSize(list[..1]) == |list[0].accounts| + |list[0].data|;
  }

  lemma MaskCases(mask: nat)
    requires MaskOk(mask)
    ensures ConfigSize(mask) == 8 + (if mask % 4 == 3 then 8 else 0) + (if mask / 16 == 1 then 4 else 0)
  {
  }
}
