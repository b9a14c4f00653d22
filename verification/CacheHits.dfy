// A checkpoint whose digest is in the dedup cache is answered from the cache and never meets the
// continuity gate, but it still reaches the read surface: when that forks a log under enforce.
module CacheHits {
  import opened Basics
  import opened Authority
  import opened Checkpoints
  import opened WitnessState
  import opened WitnessRuns
  import opened NoFork

  /** Both critical sections of one checkpoint, run next to each other. */
  function Witnessing(r: Run, cp: Checkpoint, loggedAt: int, headAt: int): seq<Op> {
    [SubmitCheckpoint(cp, loggedAt, headAt), FinishCheckpoint(|r.pending|)]
  }

  predicate TakenByOther(s: Store, cp: Checkpoint) {
    (cp.logId, cp.size) in s.records && s.records[(cp.logId, cp.size)].root != cp.root
  }

  /** What recording a checkpoint does to its log's events. */
  lemma PutRecordFlags(s: Store, cp: Checkpoint, r: Record)
    requires r.root == cp.root
    ensures var s' := PutRecord(s, cp.logId, cp.size, r);
      ConflictsOf(s', cp.logId) == ConflictsOf(s, cp.logId)
        + if TakenByOther(s, cp) then [Conflict(cp.size, EvidenceOf(s.records[(cp.logId, cp.size)]), EvidenceOf(r))]
          else []
  {
  }

  /** The events after both critical sections: a refused checkpoint raises none. */
  lemma WitnessingFlags(x: Setup, ops: seq<Op>, cp: Checkpoint, loggedAt: int, headAt: int)
    ensures var r := Exec(x, ops); var s, res := r.w.store, RegisterCheckpoint(x, r.w, cp, loggedAt, headAt).1;
      var s' := Exec(x, ops + Witnessing(r, cp, loggedAt, headAt)).w.store;
      |ConflictsOf(s', cp.logId)| == |ConflictsOf(s, cp.logId)| + if res.Ok? && TakenByOther(s, cp) then 1 else 0
  {
    var r, op := Exec(x, ops), SubmitCheckpoint(cp, loggedAt, headAt);
    var r' := Step(x, r, op);
    ExecTwo(x, ops, op, FinishCheckpoint(|r.pending|));
    RegisteringLeavesSurface(x, r, cp, loggedAt, headAt);
    hide Exec, RegisterCheckpoint, TakenByOther, PutRecord, ConflictsOf, Submitted;
    var res := RegisterCheckpoint(x, r.w, cp, loggedAt, headAt).1;
    if res.Ok? {
      assert r'.pending[|r.pending|] == Pending(cp, res.value);
      PutRecordFlags(r'.w.store, cp, RecordOf(cp, res.value));
    }
  }

  lemma RegisteringLeavesSurface(x: Setup, r: Run, cp: Checkpoint, loggedAt: int, headAt: int)
    ensures var r' := Step(x, r, SubmitCheckpoint(cp, loggedAt, headAt));
      var res := RegisterCheckpoint(x, r.w, cp, loggedAt, headAt).1;
      && r'.pending == r.pending + (if res.Ok? then [Pending(cp, res.value)] else [])
      && TakenByOther(r'.w.store, cp) == TakenByOther(r.w.store, cp)
      && ConflictsOf(r'.w.store, cp.logId) == ConflictsOf(r.w.store, cp.logId)
  {
    var q := FromCheckpoint(x, cp, loggedAt, headAt);
    OnlyFreshChangesStore(x, r.w, q);
    if Fresh(x, r.w, q) {
      AppendKeepsReadSurface(x, r.w, q);
    }
    hide Register, Fresh, Committed;
  }

  /** Exactly when such a log forks: a native checkpoint raises an event if and only if it is a cache
      hit and another root holds its position. */
  lemma {:induction false} ForkIffCacheHit(x: Setup, ops: seq<Op>, cp: Checkpoint, loggedAt: int, headAt: int)
    requires x.policy == Enforce && Faithful(x) && IsNative(cp)
    requires NativeOnly(ops, cp.logId) && DigestsNotReused(x, ops, cp.logId)
    ensures var s := Exec(x, ops).w.store;
      ConflictsOf(Exec(x, ops + Witnessing(Exec(x, ops), cp, loggedAt, headAt)).w.store, cp.logId) != [] <==>
        Lookup(x, s, CheckpointBytes(x, BodyOf(cp))).Some? && TakenByOther(s, cp)
  {
    hide Lookup, RegisterCheckpoint, Exec, ConflictsOf, CheckpointBytes;
    EnforceAdmitsNoFork(x, ops, cp.logId);
    WitnessingFlags(x, ops, cp, loggedAt, headAt);
    if TakenByOther(Exec(x, ops).w.store, cp) {
      TakenPositionNeedsCacheHit(x, ops, cp, loggedAt, headAt);
    }
  }

  /** A cache hit is never refused, whatever the policy and whatever the checkpoint claims. */
  lemma HitIsAccepted(x: Setup, w: Witness, cp: Checkpoint, loggedAt: int, headAt: int)
    requires Faithful(x) && Lookup(x, w.store, CheckpointBytes(x, BodyOf(cp))).Some?
    ensures RegisterCheckpoint(x, w, cp, loggedAt, headAt).1.Ok?
  {
    DigestDeclaresNothing(x, BodyOf(cp));
    hide Admit, Lookup, CheckpointBytes;
  }

  /** The first way past the gate, from every reachable state and under every policy: register the
      digest of a second root for a taken position as raw bytes, then the checkpoint itself. */
  lemma {:induction false} RawDigestForks(x: Setup, ops: seq<Op>, fork: Checkpoint, at: int)
    requires Faithful(x) && TakenByOther(Exec(x, ops).w.store, fork)
    ensures var raw := ops + [Submit(CheckpointBytes(x, BodyOf(fork)), at, at)];
      ConflictsOf(Exec(x, raw + Witnessing(Exec(x, raw), fork, at, at)).w.store, fork.logId) != []
  {
    var op := Submit(CheckpointBytes(x, BodyOf(fork)), at, at);
    ExecOne(x, ops, op);
    RawDigestCached(x, Exec(x, ops), BodyOf(fork), at);
    HitIsAccepted(x, Exec(x, ops + [op]).w, fork, at, at);
    WitnessingFlags(x, ops + [op], fork, at, at);
  }

  lemma RawDigestCached(x: Setup, r: Run, body: SigningBody, at: int)
    requires Faithful(x)
    ensures var s, s' := r.w.store, Step(x, r, Submit(CheckpointBytes(x, body), at, at)).w.store;
      Lookup(x, s', CheckpointBytes(x, body)).Some? && s'.records == s.records
  {
    var b := CheckpointBytes(x, body);
    var q := Submission(b, None, None, at, at);
    DigestDeclaresNothing(x, body);
    OnlyFreshChangesStore(x, r.w, q);
    if Fresh(x, r.w, q) {
      FreshIssues(x, r, q);
      AppendKeepsReadSurface(x, r.w, q);
    }
    hide Register, Committed, CheckpointBytes, DeclaredCheckpoint, AppendStatement;
  }

  /** The second: two digests that decode as COSE_Sign1 with one header and payload have one entry
      hash, so a checkpoint registered under the one makes the other a cache hit. */
  lemma {:induction false} TwinDigestForks(x: Setup, ops: seq<Op>, cp: Checkpoint, fork: Checkpoint, at: int)
    requires Faithful(x) && SameSigningAct(x, CheckpointBytes(x, BodyOf(cp)), CheckpointBytes(x, BodyOf(fork)))
    requires EntryHash(x, CheckpointBytes(x, BodyOf(cp))) in Exec(x, ops).w.store.statements
    requires TakenByOther(Exec(x, ops).w.store, fork)
    ensures ConflictsOf(Exec(x, ops + Witnessing(Exec(x, ops), fork, at, at)).w.store, fork.logId) != []
  {
    assert EntryHash(x, CheckpointBytes(x, BodyOf(fork))) == EntryHash(x, CheckpointBytes(x, BodyOf(cp)));
    HitIsAccepted(x, Exec(x, ops).w, fork, at, at);
    WitnessingFlags(x, ops, fork, at, at);
  }

  /** Such states are reached at once: a witness's first checkpoint takes its position. */
  lemma {:induction false} FirstCheckpointTakesPosition(x: Setup, cp: Checkpoint, at: int)
    requires Faithful(x)
    ensures var s := Exec(x, Witnessing(START, cp, at, at)).w.store;
      && (cp.logId, cp.size) in s.records && s.records[(cp.logId, cp.size)].root == cp.root
      && ConflictsOf(s, cp.logId) == [] && EntryHash(x, CheckpointBytes(x, BodyOf(cp))) in s.statements
  {
    var op, q := SubmitCheckpoint(cp, at, at), FromCheckpoint(x, cp, at, at);
    DigestDeclaresNothing(x, BodyOf(cp));
    assert Fresh(x, EMPTY_WITNESS, q);
    ExecTwo(x, [], op, FinishCheckpoint(0));
    assert [] + Witnessing(START, cp, at, at) == Witnessing(START, cp, at, at);
    OnlyFreshChangesStore(x, EMPTY_WITNESS, q);
    FreshIssues(x, START, q);
    AppendKeepsReadSurface(x, EMPTY_WITNESS, q);
    hide Register, Committed, Fresh, Exec, DeclaredCheckpoint, CheckpointBytes;
  }

  /** A run under enforce that ends with an event: five operations of the log's own submitter. */
  lemma {:induction false} EnforceForks(x: Setup, cp: Checkpoint, fork: Checkpoint, at: int)
    requires Faithful(x) && x.policy == Enforce && IsNative(cp) && IsNative(fork)
    requires fork.logId == cp.logId && fork.size == cp.size && fork.root != cp.root
    ensures var raw := Witnessing(START, cp, at, at) + [Submit(CheckpointBytes(x, BodyOf(fork)), at, at)];
      ConflictsOf(Exec(x, raw + Witnessing(Exec(x, raw), fork, at, at)).w.store, cp.logId) != []
  {
    hide Exec, ConflictsOf, CheckpointBytes;
    FirstCheckpointTakesPosition(x, cp, at);
    RawDigestForks(x, Witnessing(START, cp, at, at), fork, at);
  }
}
