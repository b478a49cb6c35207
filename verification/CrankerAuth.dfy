/** Cranker admission: single-use challenges, session counters and the per-minute lease limit. */
module CrankerAuth {

  const IDLE_MS := 300_000
  const SESSION_MS := 1_800_000
  const MINUTE_MS := 60_000
  const MAX_PER_MINUTE := 30

  datatype Challenge = Challenge(publicKey: string, expiresAt: int, used: bool)

  datatype Session = Session(publicKey: string, tokenHash: string, expiresAt: int, lastSeenAt: int, lastCounter: nat)

  datatype Reply = Ok | Invalid | Expired | Replayed

  // ------------------------------------------------------------- transactions

  predicate ChallengeOpen(challenges: map<string, Challenge>, id: string, publicKey: string, now: int) {
    && id in challenges && !challenges[id].used
    && challenges[id].publicKey == publicKey && challenges[id].expiresAt > now
  }

  /** The answer of the authentication transaction, first failing test first. */
  function Answer(sessions: map<string, Session>, id: string, publicKey: string, tokenHash: string, counter: nat, now: int): Reply {
    if id !in sessions || sessions[id].publicKey != publicKey || sessions[id].tokenHash != tokenHash then Invalid
    else if sessions[id].expiresAt <= now || now - sessions[id].lastSeenAt > IDLE_MS then Expired
    else if counter <= sessions[id].lastCounter then Replayed
    else Ok
  }

  /** What a session created at `now` and not used yet answers at `t`. */
  function FirstAnswer(counter: nat, now: int, t: int): Reply {
    if t >= now + 1_800_000 || t - now > 300_000 then Expired else if counter == 0 then Replayed else Ok
  }

  // --------------------------------------------------- challenges and sessions

  datatype Accepted = Accepted(session: string, publicKey: string, tokenHash: string, counter: nat)

  /** A session request whose challenge is consumed, with the key that consumed it. */
  datatype Spent = Spent(challenge: string, publicKey: string)

  /** The stored documents, the session requests whose session is not yet written (with multiplicity), and
      what has happened so far: the key each challenge was issued to, every consumption, the challenge
      behind each session and the token hash it was opened with, and every accepted request in order. */
  datatype Auth = Auth(
    challenges: map<string, Challenge>, sessions: map<string, Session>, pending: multiset<Spent>,
    issuedTo: map<string, string>, consumed: multiset<string>, origin: map<string, string>,
    tokens: map<string, string>, log: seq<Accepted>)

  datatype Event =
    | IssueChallenge(id: string, publicKey: string, expiresAt: int)
    | Consume(id: string, publicKey: string, now: int)
    | OpenSession(challenge: string, id: string, publicKey: string, tokenHash: string, now: int)
    | Request(id: string, publicKey: string, tokenHash: string, counter: nat, now: int)
    | DeleteChallenges(ids: set<string>)
    | DeleteSessions(ids: set<string>)

  const QUIET := Auth(map[], map[], multiset{}, map[], multiset{}, map[], map[], [])

  /** One step of any interleaving. Random ids are fresh; a prune may delete any documents whatsoever. */
  function Step(a: Auth, e: Event): Auth {
    match e
    case IssueChallenge(id, publicKey, expiresAt) =>
      if id in a.issuedTo then a
      else a.(challenges := a.challenges[id := Challenge(publicKey, expiresAt, false)], issuedTo := a.issuedTo[id := publicKey])
    case Consume(id, publicKey, now) =>
      if !ChallengeOpen(a.challenges, id, publicKey, now) then a
      else a.(challenges := a.challenges[id := a.challenges[id].(used := true)],
              pending := a.pending + multiset{Spent(id, publicKey)}, consumed := a.consumed + multiset{id})
    case OpenSession(challenge, id, publicKey, tokenHash, now) =>
      if Spent(challenge, publicKey) !in a.pending || id in a.origin then a
      else a.(sessions := a.sessions[id := Session(publicKey, tokenHash, now + SESSION_MS, now, 0)],
              pending := a.pending - multiset{Spent(challenge, publicKey)}, origin := a.origin[id := challenge], tokens := a.tokens[id := tokenHash])
    case Request(id, publicKey, tokenHash, counter, now) =>
      if Answer(a.sessions, id, publicKey, tokenHash, counter, now) != Ok then a
      else a.(sessions := a.sessions[id := a.sessions[id].(lastCounter := counter, lastSeenAt := now)],
              log := a.log + [Accepted(id, publicKey, tokenHash, counter)])
    case DeleteChallenges(ids) => a.(challenges := a.challenges - ids)
    case DeleteSessions(ids) => a.(sessions := a.sessions - ids)
  }

  function Play(events: seq<Event>): Auth {
    if events == [] then QUIET else Step(Play(events[..|events| - 1]), events[|events| - 1])
  }

  /** A consumed challenge was issued, and its document is used. */
  ghost predicate UsedOk(challenges: map<string, Challenge>, consumed: multiset<string>, issuedTo: map<string, string>) {
    && challenges.Keys <= issuedTo.Keys
    && (forall c :: c in consumed ==> c in issuedTo)
    && (forall c :: c in challenges && !challenges[c].used ==> c !in consumed)
  }

  /** A challenge is consumed at most once, by one request. */
  ghost predicate SpentOk(pending: multiset<Spent>, consumed: multiset<string>) {
    && (forall c :: consumed[c] <= 1)
    && (forall p: Spent :: pending[p] <= consumed[p.challenge])
    && (forall p, q :: p in pending && q in pending && p.challenge == q.challenge ==> p == q)
  }

  /** Every consumption is behind one pending request or one session, not both. */
  ghost predicate OriginsOk(origin: map<string, string>, pending: multiset<Spent>, consumed: multiset<string>) {
    && (forall s :: s in origin ==> origin[s] in consumed)
    && (forall s, p :: s in origin && p in pending ==> origin[s] != p.challenge)
    && (forall s, t :: s in origin && t in origin && origin[s] == origin[t] ==> s == t)
  }

  ghost predicate ChallengesOk(a: Auth) {
    UsedOk(a.challenges, a.consumed, a.issuedTo) && SpentOk(a.pending, a.consumed) && OriginsOk(a.origin, a.pending, a.consumed)
  }

  predicate KeyOf(issuedTo: map<string, string>, challenge: string, publicKey: string) {
    challenge in issuedTo && issuedTo[challenge] == publicKey
  }

  /** Documents and pending requests carry the key their challenge was issued to. */
  ghost predicate DocKeysOk(challenges: map<string, Challenge>, pending: multiset<Spent>, issuedTo: map<string, string>) {
    && (forall c :: c in challenges ==> KeyOf(issuedTo, c, challenges[c].publicKey))
    && (forall p :: p in pending ==> KeyOf(issuedTo, p.challenge, p.publicKey))
  }

  /** So do sessions and accepted requests. */
  ghost predicate SessionKeysOk(sessions: map<string, Session>, origin: map<string, string>, log: seq<Accepted>,
                                issuedTo: map<string, string>) {
    && (forall s :: s in origin ==> origin[s] in issuedTo)
    && (forall s :: s in sessions ==> s in origin && KeyOf(issuedTo, origin[s], sessions[s].publicKey))
    && (forall i :: 0 <= i < |log| ==> log[i].session in origin && KeyOf(issuedTo, origin[log[i].session], log[i].publicKey))
  }

  /** Sessions and accepted requests carry the token hash the session was opened with. */
  ghost predicate HashesOk(sessions: map<string, Session>, origin: map<string, string>, tokens: map<string, string>, log: seq<Accepted>) {
    && tokens.Keys == origin.Keys
    && (forall s :: s in sessions ==> s in tokens && sessions[s].tokenHash == tokens[s])
    && (forall i :: 0 <= i < |log| ==> log[i].session in tokens && log[i].tokenHash == tokens[log[i].session])
  }

  ghost predicate KeysOk(a: Auth) {
    DocKeysOk(a.challenges, a.pending, a.issuedTo) && SessionKeysOk(a.sessions, a.origin, a.log, a.issuedTo)
  }

  /** A stored session remembers a counter at least as large as any it accepted. */
  ghost predicate CountersOk(a: Auth) {
    && a.sessions.Keys <= a.origin.Keys
    && (forall i :: 0 <= i < |a.log| ==> a.log[i].session in a.origin)
    && (forall i :: 0 <= i < |a.log| && a.log[i].session in a.sessions ==> a.log[i].counter <= a.sessions[a.log[i].session].lastCounter)
    && (forall i, j :: 0 <= i < j < |a.log| && a.log[i].session == a.log[j].session ==> a.log[i].counter < a.log[j].counter)
  }

  lemma SpendingOnce(pending: multiset<Spent>, consumed: multiset<string>, spent: Spent)
    requires SpentOk(pending, consumed) && spent.challenge !in consumed
    ensures SpentOk(pending + multiset{spent}, consumed + multiset{spent.challenge})
  {
    var pending', consumed' := pending + multiset{spent}, consumed + multiset{spent.challenge};
    assert forall p: Spent :: p.challenge == spent.challenge ==> pending[p] == 0;
    assert forall c :: c != spent.challenge ==> consumed'[c] == consumed[c];
    assert forall p :: p != spent ==> pending'[p] == pending[p];
  }

  lemma SpentGone(pending: multiset<Spent>, consumed: multiset<string>, spent: Spent)
    requires SpentOk(pending, consumed) && spent in pending
    ensures SpentOk(pending - multiset{spent}, consumed) && spent.challenge in consumed
    ensures forall p :: p in pending - multiset{spent} ==> p in pending && p.challenge != spent.challenge
  {
    var pending' := pending - multiset{spent};
    assert pending[spent] == 1 && pending'[spent] == 0;
    assert forall p :: p != spent ==> pending'[p] == pending[p];
  }

  lemma SpendingKeepsOrigins(origin: map<string, string>, pending: multiset<Spent>, consumed: multiset<string>, spent: Spent)
    requires OriginsOk(origin, pending, consumed) && spent.challenge !in consumed
    ensures OriginsOk(origin, pending + multiset{spent}, consumed + multiset{spent.challenge})
  {
  }

  lemma OriginAdded(origin: map<string, string>, pending: multiset<Spent>, pending': multiset<Spent>, consumed: multiset<string>,
                    id: string, spent: Spent)
    requires OriginsOk(origin, pending, consumed) && spent in pending && spent.challenge in consumed && id !in origin
    requires forall p :: p in pending' ==> p in pending && p.challenge != spent.challenge
    ensures OriginsOk(origin[id := spent.challenge], pending', consumed)
  {
  }

  lemma OpenIsUnconsumed(a: Auth, id: string, publicKey: string, now: int)
    requires UsedOk(a.challenges, a.consumed, a.issuedTo) && ChallengeOpen(a.challenges, id, publicKey, now)
    ensures id !in a.consumed
  {
  }

  lemma StepKeepsUsed(a: Auth, e: Event)
    requires UsedOk(a.challenges, a.consumed, a.issuedTo)
    ensures UsedOk(Step(a, e).challenges, Step(a, e).consumed, Step(a, e).issuedTo)
  {
  }

  lemma ConsumeKeepsChallenges(a: Auth, id: string, publicKey: string, now: int)
    requires ChallengesOk(a) && ChallengeOpen(a.challenges, id, publicKey, now)
    ensures var b := Step(a, Consume(id, publicKey, now)); SpentOk(b.pending, b.consumed) && OriginsOk(b.origin, b.pending, b.consumed)
  {
    OpenIsUnconsumed(a, id, publicKey, now);
    hide UsedOk, SpentOk, OriginsOk, ChallengeOpen;
    SpendingOnce(a.pending, a.consumed, Spent(id, publicKey));
    SpendingKeepsOrigins(a.origin, a.pending, a.consumed, Spent(id, publicKey));
  }

  lemma OpenKeepsChallenges(a: Auth, challenge: string, id: string, publicKey: string, tokenHash: string, now: int)
    requires ChallengesOk(a) && Spent(challenge, publicKey) in a.pending && id !in a.origin
    ensures var b := Step(a, OpenSession(challenge, id, publicKey, tokenHash, now));
      SpentOk(b.pending, b.consumed) && OriginsOk(b.origin, b.pending, b.consumed)
  {
    hide UsedOk, SpentOk, OriginsOk;
    var spent := Spent(challenge, publicKey);
    SpentGone(a.pending, a.consumed, spent);
    OriginAdded(a.origin, a.pending, a.pending - multiset{spent}, a.consumed, id, spent);
  }

  lemma StepKeepsChallenges(a: Auth, e: Event)
    requires ChallengesOk(a)
    ensures ChallengesOk(Step(a, e))
  {
    StepKeepsUsed(a, e);
    hide UsedOk, SpentOk, OriginsOk, ChallengeOpen, Answer;
    match e
    case Consume(id, publicKey, now) =>
      if ChallengeOpen(a.challenges, id, publicKey, now) {
        ConsumeKeepsChallenges(a, id, publicKey, now);
      }
    case OpenSession(challenge, id, publicKey, tokenHash, now) =>
      if Spent(challenge, publicKey) in a.pending && id !in a.origin {
        OpenKeepsChallenges(a, challenge, id, publicKey, tokenHash, now);
      }
    case _ =>
  }

  /** Both transactions of one session request, with nothing in between. */
  function Issue(a: Auth, challenge: string, publicKey: string, id: string, tokenHash: string, consumedAt: int, createdAt: int): Auth {
    if ChallengeOpen(a.challenges, challenge, publicKey, consumedAt)
    then Step(Step(a, Consume(challenge, publicKey, consumedAt)), OpenSession(challenge, id, publicKey, tokenHash, createdAt))
    else a
  }

  lemma IssueEffect(a: Auth, challenge: string, publicKey: string, id: string, tokenHash: string, consumedAt: int, createdAt: int)
    requires CountersOk(a) && id !in a.origin
    ensures id !in a.sessions
    ensures var next := Issue(a, challenge, publicKey, id, tokenHash, consumedAt, createdAt);
      if ChallengeOpen(a.challenges, challenge, publicKey, consumedAt)
      then next.challenges == a.challenges[challenge := a.challenges[challenge].(used := true)]
        && next.sessions == a.sessions[id := Session(publicKey, tokenHash, createdAt + SESSION_MS, createdAt, 0)]
      else next == a
  {
  }

  lemma StepKeepsCounters(a: Auth, e: Event)
    requires CountersOk(a)
    ensures CountersOk(Step(a, e))
  {
    var b := Step(a, e);
    if e.Request? && b != a {
      assert forall i :: 0 <= i < |a.log| ==> b.log[i] == a.log[i];
    }
  }

  lemma IssuedDocKeys(challenges: map<string, Challenge>, pending: multiset<Spent>, issuedTo: map<string, string>,
                      id: string, c: Challenge)
    requires DocKeysOk(challenges, pending, issuedTo) && id !in issuedTo
    ensures DocKeysOk(challenges[id := c], pending, issuedTo[id := c.publicKey])
  {
  }

  lemma ConsumedDocKeys(challenges: map<string, Challenge>, pending: multiset<Spent>, issuedTo: map<string, string>, id: string)
    requires DocKeysOk(challenges, pending, issuedTo) && id in challenges
    ensures DocKeysOk(challenges[id := challenges[id].(used := true)],
                      pending + multiset{Spent(id, challenges[id].publicKey)}, issuedTo)
  {
  }

  lemma FewerDocKeys(challenges: map<string, Challenge>, fewer: map<string, Challenge>, pending: multiset<Spent>,
                     less: multiset<Spent>, issuedTo: map<string, string>)
    requires DocKeysOk(challenges, pending, issuedTo)
    requires forall c :: c in fewer ==> c in challenges && fewer[c] == challenges[c]
    requires forall p :: p in less ==> p in pending
    ensures DocKeysOk(fewer, less, issuedTo)
  {
  }

  lemma StepKeepsDocKeys(a: Auth, e: Event)
    requires DocKeysOk(a.challenges, a.pending, a.issuedTo)
    ensures DocKeysOk(Step(a, e).challenges, Step(a, e).pending, Step(a, e).issuedTo)
  {
    hide DocKeysOk, Answer;
    match e
    case IssueChallenge(id, publicKey, expiresAt) =>
      if id !in a.issuedTo {
        IssuedDocKeys(a.challenges, a.pending, a.issuedTo, id, Challenge(publicKey, expiresAt, false));
      }
    case Consume(id, publicKey, now) =>
      if ChallengeOpen(a.challenges, id, publicKey, now) {
        ConsumedDocKeys(a.challenges, a.pending, a.issuedTo, id);
      }
    case OpenSession(challenge, id, publicKey, tokenHash, now) =>
      FewerDocKeys(a.challenges, a.challenges, a.pending, a.pending - multiset{Spent(challenge, publicKey)}, a.issuedTo);
    case DeleteChallenges(ids) =>
      FewerDocKeys(a.challenges, a.challenges - ids, a.pending, a.pending, a.issuedTo);
    case _ =>
  }

  lemma IssuedSessionKeys(sessions: map<string, Session>, origin: map<string, string>, log: seq<Accepted>,
                          issuedTo: map<string, string>, id: string, publicKey: string)
    requires SessionKeysOk(sessions, origin, log, issuedTo) && id !in issuedTo
    ensures SessionKeysOk(sessions, origin, log, issuedTo[id := publicKey])
  {
  }

  lemma OpenedSessionKeys(sessions: map<string, Session>, origin: map<string, string>, log: seq<Accepted>,
                          issuedTo: map<string, string>, id: string, challenge: string, session: Session)
    requires SessionKeysOk(sessions, origin, log, issuedTo) && id !in origin && KeyOf(issuedTo, challenge, session.publicKey)
    ensures SessionKeysOk(sessions[id := session], origin[id := challenge], log, issuedTo)
  {
  }

  lemma RequestSessionKeys(sessions: map<string, Session>, origin: map<string, string>, log: seq<Accepted>,
                           issuedTo: map<string, string>, id: string, session: Session, counter: nat)
    requires SessionKeysOk(sessions, origin, log, issuedTo) && id in sessions && session.publicKey == sessions[id].publicKey
    ensures SessionKeysOk(sessions[id := session], origin, log + [Accepted(id, session.publicKey, session.tokenHash, counter)], issuedTo)
  {
  }

  lemma StepKeepsSessionKeys(a: Auth, e: Event)
    requires KeysOk(a)
    ensures SessionKeysOk(Step(a, e).sessions, Step(a, e).origin, Step(a, e).log, Step(a, e).issuedTo)
  {
    PendingKeys(a);
    hide DocKeysOk, KeyOf, ChallengeOpen;
    match e
    case IssueChallenge(id, publicKey, expiresAt) =>
      hide SessionKeysOk;
      if id !in a.issuedTo {
        IssuedSessionKeys(a.sessions, a.origin, a.log, a.issuedTo, id, publicKey);
      }
    case OpenSession(challenge, id, publicKey, tokenHash, now) =>
      hide SessionKeysOk;
      if Spent(challenge, publicKey) in a.pending && id !in a.origin {
        OpenedSessionKeys(a.sessions, a.origin, a.log, a.issuedTo, id, challenge,
                          Session(publicKey, tokenHash, now + SESSION_MS, now, 0));
      }
    case Request(id, publicKey, tokenHash, counter, now) =>
      hide SessionKeysOk;
      if Answer(a.sessions, id, publicKey, tokenHash, counter, now) == Ok {
        RequestSessionKeys(a.sessions, a.origin, a.log, a.issuedTo, id,
                           a.sessions[id].(lastCounter := counter, lastSeenAt := now), counter);
      }
    case _ =>
  }

  lemma PendingKeys(a: Auth)
    requires DocKeysOk(a.challenges, a.pending, a.issuedTo)
    ensures forall p :: p in a.pending ==> KeyOf(a.issuedTo, p.challenge, p.publicKey)
  {
  }

  lemma OpenedHashes(sessions: map<string, Session>, origin: map<string, string>, tokens: map<string, string>, log: seq<Accepted>,
                     id: string, challenge: string, session: Session)
    requires HashesOk(sessions, origin, tokens, log) && id !in origin
    ensures HashesOk(sessions[id := session], origin[id := challenge], tokens[id := session.tokenHash], log)
  {
  }

  lemma RequestHashes(sessions: map<string, Session>, origin: map<string, string>, tokens: map<string, string>, log: seq<Accepted>,
                      id: string, session: Session, counter: nat)
    requires HashesOk(sessions, origin, tokens, log) && id in sessions && session.tokenHash == sessions[id].tokenHash
    ensures HashesOk(sessions[id := session], origin, tokens,
                     log + [Accepted(id, session.publicKey, session.tokenHash, counter)])
  {
  }

  lemma StepKeepsHashes(a: Auth, e: Event)
    requires HashesOk(a.sessions, a.origin, a.tokens, a.log)
    ensures HashesOk(Step(a, e).sessions, Step(a, e).origin, Step(a, e).tokens, Step(a, e).log)
  {
    hide ChallengeOpen;
    match e
    case OpenSession(challenge, id, publicKey, tokenHash, now) =>
      hide HashesOk;
      if Spent(challenge, publicKey) in a.pending && id !in a.origin {
        OpenedHashes(a.sessions, a.origin, a.tokens, a.log, id, challenge, Session(publicKey, tokenHash, now + SESSION_MS, now, 0));
      }
    case Request(id, publicKey, tokenHash, counter, now) =>
      hide HashesOk;
      if Answer(a.sessions, id, publicKey, tokenHash, counter, now) == Ok {
        RequestHashes(a.sessions, a.origin, a.tokens, a.log, id, a.sessions[id].(lastCounter := counter, lastSeenAt := now), counter);
      }
    case _ =>
  }

  lemma {:induction false} PlayOk(events: seq<Event>)
    ensures ChallengesOk(Play(events)) && CountersOk(Play(events)) && KeysOk(Play(events)) && HashesOk(Play(events).sessions, Play(events).origin, Play(events).tokens, Play(events).log)
  {
    hide Step;
    if events == [] {
    } else {
      PlayOk(events[..|events| - 1]);
      StepKeepsChallenges(Play(events[..|events| - 1]), events[|events| - 1]);
      StepKeepsCounters(Play(events[..|events| - 1]), events[|events| - 1]);
      StepKeepsDocKeys(Play(events[..|events| - 1]), events[|events| - 1]);
      StepKeepsSessionKeys(Play(events[..|events| - 1]), events[|events| - 1]);
      StepKeepsHashes(Play(events[..|events| - 1]), events[|events| - 1]);
    }
  }

  /** In every interleaving, a challenge is behind at most one session. */
  lemma {:induction false} OneSessionPerChallenge(events: seq<Event>, s: string, t: string)
    requires s in Play(events).origin && t in Play(events).origin
    requires Play(events).origin[s] == Play(events).origin[t]
    ensures s == t
  {
    hide Play;
    PlayOk(events);
  }

  /** In every interleaving, pruning included, a challenge is consumed at most once. */
  lemma {:induction false} ConsumedAtMostOnce(events: seq<Event>, c: string)
    ensures Play(events).consumed[c] <= 1
  {
    hide Play;
    PlayOk(events);
  }

  /** In every interleaving, a session accepts strictly increasing counters; so no signed request,
      which names its session and counter, is accepted twice. */
  lemma {:induction false} NoRequestAcceptedTwice(events: seq<Event>, i: nat, j: nat)
    requires i < j < |Play(events).log|
    ensures Play(events).log[i] != Play(events).log[j]
    ensures Play(events).log[i].session == Play(events).log[j].session ==> Play(events).log[i].counter < Play(events).log[j].counter
  {
    hide Play;
    PlayOk(events);
  }

  /** In every interleaving, a stored session and every request it ever accepted carry the key that the
      session's challenge was issued to. */
  lemma {:induction false} SessionKeyIsChallengeKey(events: seq<Event>)
    ensures var a := Play(events);
      && (forall s :: s in a.sessions ==> s in a.origin && KeyOf(a.issuedTo, a.origin[s], a.sessions[s].publicKey))
      && (forall i :: 0 <= i < |a.log| ==> a.log[i].session in a.origin && KeyOf(a.issuedTo, a.origin[a.log[i].session], a.log[i].publicKey))
  {
    hide Play;
    PlayOk(events);
  }

  /** In every interleaving, every accepted request carries the token hash its session was opened with. */
  lemma {:induction false} AcceptedWithOpeningToken(events: seq<Event>, i: nat)
    requires i < |Play(events).log|
    ensures var a := Play(events); a.log[i].session in a.tokens && a.log[i].tokenHash == a.tokens[a.log[i].session]
  {
    hide Play;
    PlayOk(events);
  }

  /** A challenge as it was just issued can be consumed by its key, and by no other, until it expires. */
  lemma {:induction false} NewChallengeIsOpen(a: Auth, id: string, publicKey: string, expiresAt: int, key: string, t: int)
    requires id !in a.issuedTo
    ensures ChallengeOpen(Step(a, IssueChallenge(id, publicKey, expiresAt)).challenges, id, key, t)
       <==> key == publicKey && t < expiresAt
  {
  }

  // ---------------------------------------------------------------- the documents

  class AuthStore {
    var challenges: map<string, Challenge>
    var sessions: map<string, Session>

    constructor ()
      ensures challenges == map[] && sessions == map[]
    {
      challenges, sessions := map[], map[];
    }

    /** The transaction of `issueCrankerSession`: consume the challenge or refuse. */
    method ConsumeChallenge(id: string, publicKey: string, now: int) returns (consumed: bool)
      modifies this`challenges
      ensures consumed <==> ChallengeOpen(old(challenges), id, publicKey, now)
      ensures challenges == if consumed then old(challenges)[id := old(challenges)[id].(used := true)] else old(challenges)
      ensures consumed ==> !ChallengeOpen(challenges, id, publicKey, now)
      ensures forall a: Auth | a.challenges == old(challenges) :: Step(a, Consume(id, publicKey, now)).challenges == challenges
      ensures forall a: Auth | a.challenges == old(challenges) ::
        Step(a, Consume(id, publicKey, now)).consumed == if consumed then a.consumed + multiset{id} else a.consumed
    {
      if id !in challenges || challenges[id].used || challenges[id].publicKey != publicKey || challenges[id].expiresAt <= now {
        return false;
      }
      challenges := challenges[id := challenges[id].(used := true)];
      return true;
    }

    /** The session document written after a challenge was consumed; `create` never overwrites. The new
        session accepts every counter from one on until it expires or falls idle, whatever was asked of
        others stays as it was, and for a pending challenge this is the step of the interleaving model. */
    method CreateSession(id: string, publicKey: string, tokenHash: string, now: int) returns (created: bool)
      modifies this`sessions
      ensures created <==> id !in old(sessions)
      ensures sessions == if created then old(sessions)[id := Session(publicKey, tokenHash, now + SESSION_MS, now, 0)] else old(sessions)
      ensures created ==> forall counter: nat, t :: Answer(sessions, id, publicKey, tokenHash, counter, t) == FirstAnswer(counter, now, t)
      ensures forall other, key, hash, counter, t | other != id || !created ::
        Answer(sessions, other, key, hash, counter, t) == Answer(old(sessions), other, key, hash, counter, t)
      ensures forall a: Auth, c | a.sessions == old(sessions) && Spent(c, publicKey) in a.pending && id !in a.origin && CountersOk(a) ::
        created && Step(a, OpenSession(c, id, publicKey, tokenHash, now)).sessions == sessions
      ensures forall a: Auth, c | Spent(c, publicKey) in a.pending && id !in a.origin ::
        Step(a, OpenSession(c, id, publicKey, tokenHash, now)).origin == a.origin[id := c]
    {
      if id in sessions {
        return false;
      }
      sessions := sessions[id := Session(publicKey, tokenHash, now + SESSION_MS, now, 0)];
      return true;
    }

    /** `issueCrankerSession` after its signature check: consume, then create. A challenge is spent even when
        creation fails, and a session can be issued for it once only. */
    method IssueSession(challenge: string, publicKey: string, id: string, tokenHash: string, consumedAt: int, createdAt: int)
      returns (issued: bool)
      modifies this
      ensures issued <==> ChallengeOpen(old(challenges), challenge, publicKey, consumedAt) && id !in old(sessions)
      ensures ChallengeOpen(old(challenges), challenge, publicKey, consumedAt)
        ==> challenges == old(challenges)[challenge := old(challenges)[challenge].(used := true)]
      ensures ChallengeOpen(old(challenges), challenge, publicKey, consumedAt)
        ==> forall key, t :: !ChallengeOpen(challenges, challenge, key, t)
      ensures !ChallengeOpen(old(challenges), challenge, publicKey, consumedAt) ==> challenges == old(challenges)
      ensures issued ==> Answer(sessions, id, publicKey, tokenHash, 1, createdAt) == Ok
      ensures !issued ==> sessions == old(sessions)
      ensures forall a: Auth | a.challenges == old(challenges) && a.sessions == old(sessions) && CountersOk(a) && id !in a.origin ::
        var next := Issue(a, challenge, publicKey, id, tokenHash, consumedAt, createdAt);
        next.challenges == challenges && next.sessions == sessions
    {
      hide CountersOk, Issue, Step;
      forall a: Auth | a.challenges == challenges && a.sessions == sessions && CountersOk(a) && id !in a.origin
        ensures Issue(a, challenge, publicKey, id, tokenHash, consumedAt, createdAt).challenges
             == if ChallengeOpen(challenges, challenge, publicKey, consumedAt)
                then challenges[challenge := challenges[challenge].(used := true)] else challenges
        ensures Issue(a, challenge, publicKey, id, tokenHash, consumedAt, createdAt).sessions
             == if ChallengeOpen(challenges, challenge, publicKey, consumedAt)
                then sessions[id := Session(publicKey, tokenHash, createdAt + SESSION_MS, createdAt, 0)] else sessions
        ensures id !in sessions
      {
        IssueEffect(a, challenge, publicKey, id, tokenHash, consumedAt, createdAt);
      }
      var consumed := ConsumeChallenge(challenge, publicKey, consumedAt);
      if !consumed {
        return false;
      }
      issued := CreateSession(id, publicKey, tokenHash, createdAt);
    }

    /** The transaction of `authenticateCrankerRequest`. */
    method Authenticate(id: string, publicKey: string, tokenHash: string, counter: nat, now: int) returns (r: Reply)
      modifies this`sessions
      ensures r == Answer(old(sessions), id, publicKey, tokenHash, counter, now)
      ensures r.Ok? <==>
        && id in old(sessions) && old(sessions)[id].publicKey == publicKey && old(sessions)[id].tokenHash == tokenHash
        && now < old(sessions)[id].expiresAt && now - old(sessions)[id].lastSeenAt <= 300_000
        && counter > old(sessions)[id].lastCounter
      ensures sessions == if r.Ok? then old(sessions)[id := old(sessions)[id].(lastCounter := counter, lastSeenAt := now)] else old(sessions)
      ensures r.Ok? ==> forall t :: Answer(sessions, id, publicKey, tokenHash, counter, t) != Ok
      ensures r.Ok? ==> forall c: nat, t | counter < c && t < sessions[id].expiresAt && t - now <= 300_000 ::
        Answer(sessions, id, publicKey, tokenHash, c, t) == Ok
      ensures r.Ok? ==> sessions[id].expiresAt == old(sessions)[id].expiresAt && sessions[id].publicKey == publicKey
      ensures forall a: Auth | a.sessions == old(sessions) :: Step(a, Request(id, publicKey, tokenHash, counter, now)).sessions == sessions
      ensures forall a: Auth | a.sessions == old(sessions) ::
        Step(a, Request(id, publicKey, tokenHash, counter, now)).log
        == if r.Ok? then a.log + [Accepted(id, publicKey, tokenHash, counter)] else a.log
    {
      if id !in sessions || sessions[id].publicKey != publicKey {
        return Invalid;
      }
      var session := sessions[id];
      if session.tokenHash != tokenHash {
        return Invalid;
      }
      if session.expiresAt <= now || now - session.lastSeenAt > IDLE_MS {
        return Expired;
      }
      if counter <= session.lastCounter {
        return Replayed;
      }
      sessions := sessions[id := session.(lastCounter := counter, lastSeenAt := now)];
      return Ok;
    }
  }

  // ------------------------------------------------------------- rate limiting

  /** A rate document is addressed by key and minute (the digest of both is taken to be injective). */
  datatype Bucket = Bucket(key: string, minute: nat)

  datatype Rate = Rate(count: nat, updatedAt: nat)

  function Minute(time: nat): nat {
    time / 60_000
  }

  function CountOf(rates: map<Bucket, Rate>, b: Bucket): nat {
    if b in rates then rates[b].count else 0
  }

  /** The clock, the rate documents, the documents some prune has selected and may delete at any later time, and
      the number of attempts that passed and committed inside the minute their bucket names. */
  datatype Limiter = Limiter(clock: nat, rates: map<Bucket, Rate>, doomed: set<Bucket>, passed: map<Bucket, nat>)

  datatype Tick =
    | Wait(ms: nat)
    | Commit(b: Bucket)
    | Select(cutoff: int)
    | Delete(b: Bucket)

  function PassedOf(l: Limiter, b: Bucket): nat {
    if b in l.passed then l.passed[b] else 0
  }

  /** Buckets are computed before the commit and prune cutoffs at least a minute before the query,
      both by clocks that never run ahead. */
  function Advance(l: Limiter, t: Tick): Limiter {
    match t
    case Wait(ms) => l.(clock := l.clock + ms)
    case Commit(b) =>
      if b.minute > Minute(l.clock) || CountOf(l.rates, b) >= MAX_PER_MINUTE then l
      else l.(rates := l.rates[b := Rate(CountOf(l.rates, b) + 1, l.clock)],
              passed := if b.minute == Minute(l.clock) then l.passed[b := PassedOf(l, b) + 1] else l.passed)
    case Select(cutoff) =>
      if cutoff > l.clock - MINUTE_MS then l
      else l.(doomed := l.doomed + set b | b in l.rates && l.rates[b].updatedAt <= cutoff)
    case Delete(b) =>
      if b !in l.doomed then l else l.(rates := l.rates - {b})
  }

  class RateStore {
    var rates: map<Bucket, Rate>

    constructor ()
      ensures rates == map[]
    {
      rates := map[];
    }

    /** The transaction of `enforceCrankerLeaseRateLimit`. */
    method Attempt(b: Bucket, now: nat) returns (allowed: bool)
      modifies this
      ensures allowed <==> CountOf(old(rates), b) < 30
      ensures rates == if allowed then old(rates)[b := Rate(CountOf(old(rates), b) + 1, now)] else old(rates)
      ensures b.minute <= Minute(now) ==> forall l: Limiter :: l.rates == old(rates) && l.clock == now ==> Advance(l, Commit(b)).rates == rates
      ensures forall l: Limiter | l.rates == old(rates) && l.clock == now && b.minute == Minute(now) ::
        PassedOf(Advance(l, Commit(b)), b) == PassedOf(l, b) + if allowed then 1 else 0
    {
      var count := if b in rates then rates[b].count else 0;
      if count >= MAX_PER_MINUTE {
        return false;
      }
      rates := rates[b := Rate(count + 1, now)];
      return true;
    }
  }

  const IDLE := Limiter(0, map[], {}, map[])

  function Elapse(ticks: seq<Tick>): Limiter {
    if ticks == [] then IDLE else Advance(Elapse(ticks[..|ticks| - 1]), ticks[|ticks| - 1])
  }

  /** During a minute its count covers every pass so far, and no prune has selected it. */
  ghost predicate LimiterOk(l: Limiter) {
    && (forall b :: b in l.rates ==> l.rates[b].updatedAt >= b.minute * MINUTE_MS && l.rates[b].count <= MAX_PER_MINUTE)
    && (forall b :: b in l.doomed ==> b.minute < Minute(l.clock))
    && (forall b :: b in l.passed ==> b.minute <= Minute(l.clock) && l.passed[b] <= MAX_PER_MINUTE)
    && (forall b :: b in l.passed && b.minute == Minute(l.clock) ==> l.passed[b] <= CountOf(l.rates, b))
  }

  lemma MinuteLater(clock: nat, minute: nat, updatedAt: nat)
    requires updatedAt >= minute * MINUTE_MS && updatedAt + MINUTE_MS <= clock
    ensures minute < Minute(clock)
  {
  }

  lemma AdvanceKeepsLimiter(l: Limiter, t: Tick)
    requires LimiterOk(l)
    ensures LimiterOk(Advance(l, t))
  {
    if t.Select? {
      forall b | b in Advance(l, t).doomed ensures b.minute < Minute(l.clock) {
        if b !in l.doomed {
          MinuteLater(l.clock, b.minute, l.rates[b].updatedAt);
        }
      }
    }
  }

  lemma {:induction false} ElapseOk(ticks: seq<Tick>)
    ensures LimiterOk(Elapse(ticks))
  {
    hide Advance;
    if ticks == [] {
    } else {
      ElapseOk(ticks[..|ticks| - 1]);
      AdvanceKeepsLimiter(Elapse(ticks[..|ticks| - 1]), ticks[|ticks| - 1]);
    }
  }

  /** However pruning interleaves, at most 30 attempts of a key commit and pass within their own minute. */
  lemma {:induction false} AtMostThirtyPerMinute(ticks: seq<Tick>, b: Bucket)
    ensures PassedOf(Elapse(ticks), b) <= 30
  {
    hide Elapse;
    ElapseOk(ticks);
  }

  // ---------------------------------------------------------------- late commits

  /** Whether an attempt that commits now is counted and passes. */
  predicate Passes(l: Limiter, b: Bucket) {
    b.minute <= Minute(l.clock) && CountOf(l.rates, b) < MAX_PER_MINUTE
  }

  predicate Deletes(l: Limiter, t: Tick, b: Bucket) {
    t == Delete(b) && b in l.doomed && b in l.rates
  }

  /** All passes of a bucket, late ones included. */
  function Ever(ticks: seq<Tick>, b: Bucket): nat {
    if ticks == [] then 0
    else
      var before, t := ticks[..|ticks| - 1], ticks[|ticks| - 1];
      Ever(before, b) + if t == Commit(b) && Passes(Elapse(before), b) then 1 else 0
  }

  /** How often the document of a bucket was deleted. */
  function Deletions(ticks: seq<Tick>, b: Bucket): nat {
    if ticks == [] then 0
    else
      var before, t := ticks[..|ticks| - 1], ticks[|ticks| - 1];
      Deletions(before, b) + if Deletes(Elapse(before), t, b) then 1 else 0
  }

  /** Passes of a bucket since its document was last deleted. */
  function SinceDeletion(ticks: seq<Tick>, b: Bucket): nat {
    if ticks == [] then 0
    else
      var before, t := ticks[..|ticks| - 1], ticks[|ticks| - 1];
      if Deletes(Elapse(before), t, b) then 0
      else SinceDeletion(before, b) + if t == Commit(b) && Passes(Elapse(before), b) then 1 else 0
  }

  lemma CountStep(l: Limiter, t: Tick, b: Bucket)
    ensures CountOf(Advance(l, t).rates, b) ==
      if Deletes(l, t, b) then 0 else CountOf(l.rates, b) + if t == Commit(b) && Passes(l, b) then 1 else 0
  {
  }

  /** The stored count is the number of passes since the last deletion. */
  lemma {:induction false} CountIsSinceDeletion(ticks: seq<Tick>, b: Bucket)
    ensures CountOf(Elapse(ticks).rates, b) == SinceDeletion(ticks, b)
    ensures Deletions(ticks, b) == 0 ==> SinceDeletion(ticks, b) == Ever(ticks, b)
  {
    hide Passes, Deletes, Advance;
    if ticks != [] {
      var before := ticks[..|ticks| - 1];
      CountIsSinceDeletion(before, b);
      CountStep(Elapse(before), ticks[|ticks| - 1], b);
    }
  }

  /** The exact condition, for attempts of any minute: the next commit to a bucket passes if and only if its
      minute has come and fewer than 30 passed since the bucket's document was last deleted. */
  lemma {:induction false} NextPassesIff(ticks: seq<Tick>, b: Bucket)
    ensures Passes(Elapse(ticks), b) <==> b.minute <= Minute(Elapse(ticks).clock) && SinceDeletion(ticks, b) < 30
  {
    CountIsSinceDeletion(ticks, b);
  }

  /** Without a deletion of its document a bucket never exceeds the limit, late commits included;
      every deletion allows one more round. */
  lemma {:induction false} EverBounded(ticks: seq<Tick>, b: Bucket)
    ensures Ever(ticks, b) <= MAX_PER_MINUTE * Deletions(ticks, b) + SinceDeletion(ticks, b)
    ensures SinceDeletion(ticks, b) <= MAX_PER_MINUTE
    ensures Deletions(ticks, b) == 0 ==> Ever(ticks, b) <= MAX_PER_MINUTE
  {
    hide Passes, Advance, Elapse;
    CountIsSinceDeletion(ticks, b);
    CountBounded(ticks, b);
    if ticks != [] {
      EverBounded(ticks[..|ticks| - 1], b);
    }
  }

  lemma {:induction false} CountBounded(ticks: seq<Tick>, b: Bucket)
    ensures CountOf(Elapse(ticks).rates, b) <= MAX_PER_MINUTE
  {
    hide Elapse;
    ElapseOk(ticks);
  }

  /** A deletion comes after the bucket's minute. */
  lemma {:induction false} DeletedOnlyLater(ticks: seq<Tick>, b: Bucket)
    ensures Deletions(ticks, b) > 0 ==> b.minute < Minute(Elapse(ticks).clock)
  {
    hide Minute;
    if ticks != [] {
      var before := ticks[..|ticks| - 1];
      DeletedOnlyLater(before, b);
      ElapseOk(before);
      ClockGrows(Elapse(before), ticks[|ticks| - 1]);
    }
  }

  /** So every pass beyond 30 is a late commit, after a deletion. */
  lemma {:induction false} ExcessIsLate(ticks: seq<Tick>, b: Bucket)
    requires Passes(Elapse(ticks), b) && Ever(ticks, b) >= MAX_PER_MINUTE
    ensures Deletions(ticks, b) > 0 && b.minute < Minute(Elapse(ticks).clock)
  {
    hide Elapse, Ever, Deletions, Minute;
    CountIsSinceDeletion(ticks, b);
    DeletedOnlyLater(ticks, b);
  }

  lemma ClockGrows(l: Limiter, t: Tick)
    ensures Minute(l.clock) <= Minute(Advance(l, t).clock)
  {
  }

  /** Thirty or fewer attempts at the first instant of the bucket's minute. */
  function Fill(b: Bucket, n: nat): seq<Tick> {
    if n == 0 then [Wait(b.minute * MINUTE_MS)] else Fill(b, n - 1) + [Commit(b)]
  }

  /** A limiter that has counted `n` attempts of one bucket, the last one at the first instant of its minute. */
  predicate Filled(l: Limiter, b: Bucket, n: nat) {
    && l.clock == b.minute * MINUTE_MS && l.doomed == {} && CountOf(l.rates, b) == n
    && (n > 0 ==> b in l.rates && l.rates[b].updatedAt == l.clock)
  }

  lemma Filling(l: Limiter, b: Bucket, n: nat)
    requires n < MAX_PER_MINUTE && Filled(l, b, n)
    ensures Passes(l, b) && Filled(Advance(l, Commit(b)), b, n + 1)
  {
    SameMinute(b.minute);
  }

  lemma {:induction false} Opening(b: Bucket)
    ensures Elapse(Fill(b, 0)) == IDLE.(clock := b.minute * MINUTE_MS) && Ever(Fill(b, 0), b) == 0 && Deletions(Fill(b, 0), b) == 0
  {
    assert [Wait(b.minute * MINUTE_MS)][..0] == [];
    assert Elapse([]) == IDLE && Ever([], b) == 0 && Deletions([], b) == 0;
  }

  lemma {:induction false} FillFills(b: Bucket, n: nat)
    requires n <= MAX_PER_MINUTE
    ensures Filled(Elapse(Fill(b, n)), b, n) && Ever(Fill(b, n), b) == n && Deletions(Fill(b, n), b) == 0
  {
    hide Elapse, Ever, Deletions, Advance, Passes;
    if n == 0 {
      Opening(b);
    } else {
      FillFills(b, n - 1);
      Snoc(Fill(b, n - 1), Commit(b), b);
      Filling(Elapse(Fill(b, n - 1)), b, n - 1);
    }
  }

  lemma SameMinute(minute: nat)
    ensures Minute(minute * MINUTE_MS) == minute && Minute((minute + 1) * MINUTE_MS) == minute + 1
  {
  }

  lemma {:induction false} Snoc(ticks: seq<Tick>, t: Tick, b: Bucket)
    ensures Elapse(ticks + [t]) == Advance(Elapse(ticks), t)
    ensures Ever(ticks + [t], b) == Ever(ticks, b) + if t == Commit(b) && Passes(Elapse(ticks), b) then 1 else 0
    ensures Deletions(ticks + [t], b) == Deletions(ticks, b) + if Deletes(Elapse(ticks), t, b) then 1 else 0
  {
    assert (ticks + [t])[..|ticks|] == ticks;
  }

  /** For every bucket there is a run with a thirty-first pass: its document is pruned a minute later, and
      then an attempt that computed the bucket in its minute commits. */
  lemma LateCommitExceeds(b: Bucket)
    ensures exists ticks :: Ever(ticks, b) == 31 && Deletions(ticks, b) == 1
  {
    hide Elapse, Ever, Deletions, Fill, Minute;
    var t0 := Fill(b, 30);
    FillFills(b, 30);
    SameMinute(b.minute);
    Snoc(t0, Wait(60_000), b);
    var t1 := t0 + [Wait(60_000)];
    Snoc(t1, Select(b.minute * 60_000), b);
    var t2 := t1 + [Select(b.minute * 60_000)];
    Snoc(t2, Delete(b), b);
    var t3 := t2 + [Delete(b)];
    Snoc(t3, Commit(b), b);
    var t4 := t3 + [Commit(b)];
    assert Ever(t4, b) == 31 && Deletions(t4, b) == 1;
  }
}
