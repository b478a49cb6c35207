/** Several Nodes on one snapshot directory, in every interleaving.

    A Node prepares from files that it reads once, keeps the loaded snapshot while it finishes the credit,
    and publishes later; any other Node may publish in between. */
module HiddenHeadNodes {
  import opened Wrappers
  import opened SparseTrees
  import opened PointGroup
  import opened HiddenHeads
  import opened HiddenHeadRuns
  import opened HiddenHeadStore

  datatype Candidate = Candidate(root: nat, state: Snapshot)

  /** What one Node holds between its calls: the root it read, the loaded snapshot, the credit, and after
      `finish_credit` the edited snapshot under its incremental root. */
  datatype Pending = Pending(oldRoot: nat, loaded: Snapshot, credit: Credit, candidate: Option<Candidate>)

  /** The directory, what each Node holds, and the run of credits behind each file. */
  datatype Shared = Shared(tcaps: map<nat, Snapshot>, pending: map<nat, Pending>, runs: map<nat, seq<Credit>>)

  datatype Step =
    | Prepare(node: nat, q: Request, delta: nat)
    | Finish(node: nat, memo: nat)
    | Save(node: nat)

  ghost function Start(e: Env): Shared {
    Shared(map[GlobalRoot(e, EMPTY) := EMPTY], map[], map[GlobalRoot(e, EMPTY) := []])
  }

  /** One call of one Node; a refused call changes nothing. */
  ghost function Next(e: Env, tips: map<nat, seq<nat>>, s: Shared, step: Step): Shared {
    match step
    case Prepare(node, q, delta) =>
      if !Accepts(e, tips, s.tcaps, q) then s
      else s.(pending := s.pending[node := Pending(q.oldRoot, s.tcaps[q.oldRoot], CreditOf(q, delta, 0), None)])
    case Finish(node, memo) =>
      if node !in s.pending || s.pending[node].candidate.Some? || memo >= FIELD
         || !IndicesDistinct(e, s.pending[node].loaded.heads) then s
      else
        var p := s.pending[node];
        var t := p.credit.(memo := memo);
        var root := IncrementalRoot(e, p.loaded, t);
        if root == p.oldRoot then s
        else s.(pending := s.pending[node := p.(credit := t, candidate := Some(Candidate(root, Credited(e, p.loaded, t))))])
    case Save(node) =>
      if node !in s.pending || s.pending[node].candidate.None? then s
      else
        var p := s.pending[node];
        var c := p.candidate.value;
        if c.root in s.tcaps || p.oldRoot !in s.runs then s
        else s.(tcaps := s.tcaps[c.root := c.state], runs := s.runs[c.root := s.runs[p.oldRoot] + [p.credit]])
  }

  ghost function Evolve(e: Env, tips: map<nat, seq<nat>>, steps: seq<Step>): Shared {
    if steps == [] then Start(e) else Next(e, tips, Evolve(e, tips, steps[..|steps| - 1]), steps[|steps| - 1])
  }

  // ------------------------------------------------------------------ invariant

  /** A file is the snapshot of a legal run whose root names it. */
  ghost predicate Filed(e: Env, root: nat, state: Snapshot, run: seq<Credit>)
    requires ValidEnv(e)
  {
    LegalRun(e, run) && state == Replay(e, run) && RunRoot(e, run) == root
  }

  ghost predicate FilesOk(e: Env, tcaps: map<nat, Snapshot>, runs: map<nat, seq<Credit>>)
    requires ValidEnv(e)
  {
    runs.Keys == tcaps.Keys && forall r :: r in tcaps ==> Filed(e, r, tcaps[r], runs[r])
  }

  /** What a Node holds still agrees with the file it read. */
  ghost predicate PendingOk(e: Env, tcaps: map<nat, Snapshot>, p: Pending) {
    && p.oldRoot in tcaps && tcaps[p.oldRoot] == p.loaded
    && ValidSnapshot(e, p.loaded) && CreditAllowed(e, p.loaded, p.credit)
    && (p.candidate.Some? ==>
          && p.credit.memo < FIELD
          && p.candidate.value == Candidate(IncrementalRoot(e, p.loaded, p.credit), Credited(e, p.loaded, p.credit)))
  }

  ghost predicate Inv(e: Env, s: Shared)
    requires ValidEnv(e)
  {
    FilesOk(e, s.tcaps, s.runs) && forall n :: n in s.pending ==> PendingOk(e, s.tcaps, s.pending[n])
  }

  /** No file is ever changed or removed. */
  ghost predicate Extends(a: Shared, b: Shared) {
    forall r :: r in a.tcaps ==> r in b.tcaps && b.tcaps[r] == a.tcaps[r]
  }

  lemma StartOk(e: Env)
    requires ValidEnv(e)
    ensures Inv(e, Start(e))
  {
    hide ValidEnv;
  }

  lemma PrepareKeeps(e: Env, tips: map<nat, seq<nat>>, s: Shared, node: nat, q: Request, delta: nat)
    requires ValidEnv(e) && Inv(e, s)
    ensures Inv(e, Next(e, tips, s, Prepare(node, q, delta)))
  {
    hide ValidEnv, FilesOk, ValidSnapshot, RouteAccepted, InSubgroup, SlotFree, Slot, NullifierLeaves;
  }

  lemma FinishKeeps(e: Env, tips: map<nat, seq<nat>>, s: Shared, node: nat, memo: nat)
    requires ValidEnv(e) && Inv(e, s)
    ensures Inv(e, Next(e, tips, s, Finish(node, memo)))
  {
    hide ValidEnv, FilesOk, ValidSnapshot, SlotFree, Slot, NullifierLeaves, IncrementalRoot, Credited, IndicesDistinct;
  }

  /** A finished candidate is the next snapshot of a legal run, under the root that a rebuild gives. */
  lemma CandidateFiled(e: Env, s: Shared, p: Pending)
    requires ValidEnv(e) && FilesOk(e, s.tcaps, s.runs) && PendingOk(e, s.tcaps, p) && p.candidate.Some?
    ensures Filed(e, p.candidate.value.root, p.candidate.value.state, s.runs[p.oldRoot] + [p.credit])
  {
    hide ValidEnv, ValidSnapshot, CreditAllowed, IncrementalRoot, Credited, LegalRun, Replay, IndicesDistinct, GlobalRoot;
    assert Filed(e, p.oldRoot, s.tcaps[p.oldRoot], s.runs[p.oldRoot]);
    RunExtends(e, s.runs[p.oldRoot], p.credit);
    IncrementalEqualsRebuilt(e, p.loaded, p.credit);
  }

  lemma SaveKeeps(e: Env, tips: map<nat, seq<nat>>, s: Shared, node: nat)
    requires ValidEnv(e) && Inv(e, s)
    ensures Inv(e, Next(e, tips, s, Save(node)))
  {
    hide ValidEnv, Filed, ValidSnapshot, CreditAllowed, IncrementalRoot, Credited;
    if node in s.pending && s.pending[node].candidate.Some? {
      CandidateFiled(e, s, s.pending[node]);
    }
  }

  lemma NextExtends(e: Env, tips: map<nat, seq<nat>>, s: Shared, step: Step)
    ensures Extends(s, Next(e, tips, s, step))
  {
    hide Accepts, IncrementalRoot, Credited, IndicesDistinct;
  }

  lemma {:induction false} EvolveOk(e: Env, tips: map<nat, seq<nat>>, steps: seq<Step>)
    requires ValidEnv(e)
    ensures Inv(e, Evolve(e, tips, steps))
  {
    hide ValidEnv, Inv, Next;
    if steps == [] {
      StartOk(e);
    } else {
      var before := steps[..|steps| - 1];
      EvolveOk(e, tips, before);
      match steps[|steps| - 1]
      case Prepare(node, q, delta) => PrepareKeeps(e, tips, Evolve(e, tips, before), node, q, delta);
      case Finish(node, memo) => FinishKeeps(e, tips, Evolve(e, tips, before), node, memo);
      case Save(node) => SaveKeeps(e, tips, Evolve(e, tips, before), node);
    }
  }

  // ------------------------------------------------------------------- theorems

  /** However the Nodes interleave, every file is the snapshot of a legal run and rebuilds to its name. */
  lemma {:induction false} EveryFileRebuilds(e: Env, tips: map<nat, seq<nat>>, steps: seq<Step>, root: nat)
    requires ValidEnv(e) && root in Evolve(e, tips, steps).tcaps
    ensures var state := Evolve(e, tips, steps).tcaps[root];
      && IndicesDistinct(e, state.heads) && GlobalRoot(e, state) == root
      && exists run :: LegalRun(e, run) && state == Replay(e, run)
  {
    hide ValidEnv, Evolve, LegalRun, Replay, IndicesDistinct, GlobalRoot;
    EvolveOk(e, tips, steps);
    var s := Evolve(e, tips, steps);
    assert Filed(e, root, s.tcaps[root], s.runs[root]);
    RunIndicesDistinct(e, s.runs[root]);
  }

  /** However the Nodes interleave, a file once published stays as it is. */
  lemma {:induction false} FilesStay(e: Env, tips: map<nat, seq<nat>>, steps: seq<Step>, i: nat)
    requires i <= |steps|
    ensures Extends(Evolve(e, tips, steps[..i]), Evolve(e, tips, steps))
    decreases |steps|
  {
    hide Next, Start;
    if i < |steps| {
      var before := steps[..|steps| - 1];
      FilesStay(e, tips, before, i);
      assert before[..i] == steps[..i];
      NextExtends(e, tips, Evolve(e, tips, before), steps[|steps| - 1]);
    } else {
      assert steps[..i] == steps;
    }
  }

  /** Whatever was published while a Node held its candidate, the file it read is still the one it loaded, and
      the candidate is accepted as a snapshot exactly when its commitments are non-zero. */
  lemma {:induction false} CandidateStaysGood(e: Env, tips: map<nat, seq<nat>>, steps: seq<Step>, node: nat)
    requires ValidEnv(e) && node in Evolve(e, tips, steps).pending
    requires Evolve(e, tips, steps).pending[node].candidate.Some?
    ensures var s := Evolve(e, tips, steps); var p := s.pending[node]; var c := p.candidate.value;
      && p.oldRoot in s.tcaps && s.tcaps[p.oldRoot] == p.loaded
      && IndicesDistinct(e, c.state.heads) && GlobalRoot(e, c.state) == c.root
      && (ValidSnapshot(e, c.state) <==> p.credit.memo != 0 && ActionCommitment(e, p.credit) != 0)
  {
    hide ValidEnv, Evolve, ValidSnapshot, CreditAllowed, IncrementalRoot, Credited, IndicesDistinct, GlobalRoot, FilesOk;
    EvolveOk(e, tips, steps);
    var p := Evolve(e, tips, steps).pending[node];
    IncrementalEqualsRebuilt(e, p.loaded, p.credit);
    CreditedValidIff(e, p.loaded, p.credit);
  }

  /** The Nodes get somewhere: every credit that is accepted against a file can be finished and published, unless the
      hash maps the edited snapshot to its predecessor's root. */
  lemma {:induction false} AcceptedCanBePublished(e: Env, tips: map<nat, seq<nat>>, steps: seq<Step>, node: nat, q: Request, delta: nat,
                                                  memo: nat)
    requires ValidEnv(e) && Accepts(e, tips, Evolve(e, tips, steps).tcaps, q) && memo < FIELD
    ensures var before := Evolve(e, tips, steps);
      var next := Credited(e, before.tcaps[q.oldRoot], CreditOf(q, delta, memo));
      && IndicesDistinct(e, next.heads)
      && (GlobalRoot(e, next) != q.oldRoot ==>
            GlobalRoot(e, next) in Evolve(e, tips, steps + [Prepare(node, q, delta), Finish(node, memo), Save(node)]).tcaps)
      && (GlobalRoot(e, next) != q.oldRoot && GlobalRoot(e, next) !in before.tcaps ==>
            Evolve(e, tips, steps + [Prepare(node, q, delta), Finish(node, memo), Save(node)]).tcaps[GlobalRoot(e, next)] == next)
  {
    EvolveOk(e, tips, steps);
    var s := Evolve(e, tips, steps);
    AcceptedCredit(e, tips, s.tcaps, q, delta, memo);
    IncrementalEqualsRebuilt(e, s.tcaps[q.oldRoot], CreditOf(q, delta, memo));
    ThreeSteps(e, tips, steps, Prepare(node, q, delta), Finish(node, memo), Save(node));
    var next := Credited(e, s.tcaps[q.oldRoot], CreditOf(q, delta, memo));
    if GlobalRoot(e, next) != q.oldRoot {
      CallsInARow(e, tips, s, node, q, delta, memo);
    }
    hide ValidEnv, Accepts, IncrementalRoot, Credited, IndicesDistinct, GlobalRoot, Evolve, Inv, Next;
  }

  lemma PrepareCall(e: Env, tips: map<nat, seq<nat>>, s: Shared, node: nat, q: Request, delta: nat)
    requires Accepts(e, tips, s.tcaps, q)
    ensures Next(e, tips, s, Prepare(node, q, delta))
         == s.(pending := s.pending[node := Pending(q.oldRoot, s.tcaps[q.oldRoot], CreditOf(q, delta, 0), None)])
  {
    hide IncrementalRoot, Credited, IndicesDistinct, ArgumentsOk, RouteAccepted, CreditAccepted, ValidSnapshot, GlobalRoot;
  }

  lemma FinishCall(e: Env, tips: map<nat, seq<nat>>, s: Shared, node: nat, memo: nat)
    requires node in s.pending && s.pending[node].candidate == None && memo < FIELD
    requires IndicesDistinct(e, s.pending[node].loaded.heads)
    requires IncrementalRoot(e, s.pending[node].loaded, s.pending[node].credit.(memo := memo)) != s.pending[node].oldRoot
    ensures var p := s.pending[node]; var t := p.credit.(memo := memo);
      var c := Candidate(IncrementalRoot(e, p.loaded, t), Credited(e, p.loaded, t));
      Next(e, tips, s, Finish(node, memo)) == s.(pending := s.pending[node := p.(credit := t, candidate := Some(c))])
  {
    hide IncrementalRoot, Credited, IndicesDistinct;
  }

  lemma SaveCall(e: Env, tips: map<nat, seq<nat>>, s: Shared, node: nat)
    requires node in s.pending && s.pending[node].candidate.Some? && s.pending[node].oldRoot in s.runs
    ensures var c := s.pending[node].candidate.value; var last := Next(e, tips, s, Save(node));
      c.root in last.tcaps && (c.root !in s.tcaps ==> last.tcaps[c.root] == c.state)
  {
  }

  /** Prepare, finish and save with nothing in between. */
  lemma CallsInARow(e: Env, tips: map<nat, seq<nat>>, s: Shared, node: nat, q: Request, delta: nat, memo: nat)
    requires ValidEnv(e) && Inv(e, s) && Accepts(e, tips, s.tcaps, q) && memo < FIELD
    requires ValidSnapshot(e, s.tcaps[q.oldRoot])
    requires IndicesDistinct(e, Credited(e, s.tcaps[q.oldRoot], CreditOf(q, delta, memo)).heads)
    requires IncrementalRoot(e, s.tcaps[q.oldRoot], CreditOf(q, delta, memo))
          == GlobalRoot(e, Credited(e, s.tcaps[q.oldRoot], CreditOf(q, delta, memo))) != q.oldRoot
    ensures var next := Credited(e, s.tcaps[q.oldRoot], CreditOf(q, delta, memo));
      var last := Next(e, tips, Next(e, tips, Next(e, tips, s, Prepare(node, q, delta)), Finish(node, memo)), Save(node));
      GlobalRoot(e, next) in last.tcaps && (GlobalRoot(e, next) !in s.tcaps ==> last.tcaps[GlobalRoot(e, next)] == next)
  {
    InvRuns(e, s, q.oldRoot);
    hide ValidEnv, Accepts, IncrementalRoot, Credited, IndicesDistinct, GlobalRoot, FilesOk, PendingOk, Inv, Next, ValidNullifiers, HeadOk;
    PrepareCall(e, tips, s, node, q, delta);
    var a := Next(e, tips, s, Prepare(node, q, delta));
    FinishCall(e, tips, a, node, memo);
    SaveCall(e, tips, Next(e, tips, a, Finish(node, memo)), node);
  }

  lemma InvRuns(e: Env, s: Shared, root: nat)
    requires ValidEnv(e) && Inv(e, s) && root in s.tcaps
    ensures root in s.runs
  {
    hide ValidEnv, Filed, PendingOk;
  }

  lemma AcceptedCredit(e: Env, tips: map<nat, seq<nat>>, tcaps: map<nat, Snapshot>, q: Request, delta: nat, memo: nat)
    requires Accepts(e, tips, tcaps, q)
    ensures q.oldRoot in tcaps && ValidSnapshot(e, tcaps[q.oldRoot])
    ensures CreditAllowed(e, tcaps[q.oldRoot], CreditOf(q, delta, memo))
  {
    hide InSubgroup, RouteAccepted, ValidSnapshot, GlobalRoot, CreditAllowed;
    SameCreditAllowed(e, tcaps[q.oldRoot], q, delta, memo);
  }

  /** Neither the delta nor the memo is tested. */
  lemma SameCreditAllowed(e: Env, s: Snapshot, q: Request, delta: nat, memo: nat)
    requires CreditAllowed(e, s, CreditOf(q, 0, 0))
    ensures CreditAllowed(e, s, CreditOf(q, delta, memo))
  {
    hide SlotFree, Slot, NullifierLeaves, PriorHead, TokenOk, RouteKey;
  }

  lemma {:induction false} OneStep(e: Env, tips: map<nat, seq<nat>>, steps: seq<Step>, a: Step)
    ensures Evolve(e, tips, steps + [a]) == Next(e, tips, Evolve(e, tips, steps), a)
  {
    hide Next;
    assert (steps + [a])[..|steps|] == steps;
  }

  lemma {:induction false} ThreeSteps(e: Env, tips: map<nat, seq<nat>>, steps: seq<Step>, a: Step, b: Step, c: Step)
    ensures Evolve(e, tips, steps + [a, b, c]) == Next(e, tips, Next(e, tips, Next(e, tips, Evolve(e, tips, steps), a), b), c)
  {
    hide Next, Evolve;
    OneStep(e, tips, steps, a);
    OneStep(e, tips, steps + [a], b);
    OneStep(e, tips, steps + [a] + [b], c);
    assert steps + [a] + [b] + [c] == steps + [a, b, c];
  }
}
