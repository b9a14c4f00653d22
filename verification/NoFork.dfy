// Under the enforce policy a native log cannot fork: no equivocation is ever recorded for it.
module NoFork {
  import opened Basics
  import opened Authority
  import opened Checkpoints
  import opened WitnessState
  import opened WitnessRuns
  import opened TipChain
  import HashChain

  /** The bytes a submission is registered under. */
  function OpBytes(x: Setup, op: Op): Bytes
    requires IsSubmission(op)
  {
    SubmissionOf(x, op).bytes
  }

  predicate ChecksLog(op: Op, logId: string) {
    op.SubmitCheckpoint? && op.cp.logId == logId
  }

  /** Every POST /checkpoints submission of the log is a native COSE one. */
  ghost predicate NativeOnly(ops: seq<Op>, logId: string) {
    forall op :: op in ops && ChecksLog(op, logId) ==> IsNative(op.cp)
  }

  /** A registration of the other bytes is a cache hit for these. */
  predicate HitBy(x: Setup, b: Bytes, other: Bytes) {
    EntryHash(x, other) == EntryHash(x, b) || EntryHash(x, other) == LegacyHash(x, b)
  }

  /** No other submission of the run makes a checkpoint of the log a cache hit: its digest is not
      registered as raw bytes, nor shares a key with another submission by a hash collision or by
      decoding as a COSE_Sign1 of the same header and payload. */
  ghost predicate DigestsNotReused(x: Setup, ops: seq<Op>, logId: string) {
    forall op, other :: op in ops && other in ops && ChecksLog(op, logId) && IsSubmission(other)
      && HitBy(x, OpBytes(x, op), OpBytes(x, other))
      ==> other.SubmitCheckpoint? && BodyOf(other.cp) == BodyOf(op.cp)
  }

  predicate IsFor(a: Acceptance, logId: string, size: int, root: Digest) {
    LogOf(a) == logId && SizeOf(a) == size && NewTip(a).root == root
  }

  ghost predicate AcceptedAt(r: Run, logId: string, size: int, root: Digest) {
    exists i :: 0 <= i < |r.accepted| && IsFor(r.accepted[i], logId, size, root)
  }

  /** A cached key came from a submission of the run; a checkpoint's from its acceptance. */
  ghost predicate CameFrom(x: Setup, r: Run, op: Op, key: Digest) {
    && IsSubmission(op) && EntryHash(x, OpBytes(x, op)) == key
    && (op.SubmitCheckpoint? ==> AcceptedAt(r, op.cp.logId, op.cp.size, op.cp.root))
  }

  ghost predicate OnlyMoves(accepted: seq<Acceptance>, logId: string) {
    forall i :: 0 <= i < |accepted| && LogOf(accepted[i]) == logId ==> Moves(accepted[i])
  }

  /** Every registered checkpoint of the log, on the read surface or not yet, was accepted. */
  ghost predicate RegisteredAccepted(r: Run, logId: string) {
    && (forall p :: p in r.pending && p.cp.logId == logId ==> AcceptedAt(r, logId, p.cp.size, p.cp.root))
    && forall size :: (logId, size) in r.w.store.records ==>
         AcceptedAt(r, logId, size, r.w.store.records[(logId, size)].root)
  }

  ghost predicate CacheSourced(x: Setup, ops: seq<Op>, r: Run) {
    forall k :: k in r.w.store.statements ==> exists op :: op in ops && CameFrom(x, r, op, k)
  }

  ghost predicate NoForkInv(x: Setup, ops: seq<Op>, logId: string, r: Run) {
    && OnlyMoves(r.accepted, logId) && RegisteredAccepted(r, logId) && CacheSourced(x, ops, r)
    && logId !in r.w.store.conflicts
  }

  lemma AcceptedAtGrows(r: Run, t: Run)
    requires r.accepted <= t.accepted
    ensures forall logId, size, root :: AcceptedAt(r, logId, size, root) ==> AcceptedAt(t, logId, size, root)
  {
    forall logId, size, root | AcceptedAt(r, logId, size, root) ensures AcceptedAt(t, logId, size, root) {
      var i :| 0 <= i < |r.accepted| && IsFor(r.accepted[i], logId, size, root);
      assert t.accepted[i] == r.accepted[i];
    }
  }

  /** One position of a chain that only moves has one root. */
  lemma {:induction false} OneRootPerPosition(x: Setup, r: Run, logId: string, size: int, root1: Digest, root2: Digest)
    requires IsChain(x, r.accepted)
    requires OnlyMoves(r.accepted, logId)
    requires AcceptedAt(r, logId, size, root1) && AcceptedAt(r, logId, size, root2)
    ensures root1 == root2
  {
    var i :| 0 <= i < |r.accepted| && IsFor(r.accepted[i], logId, size, root1);
    var j :| 0 <= j < |r.accepted| && IsFor(r.accepted[j], logId, size, root2);
    if i < j {
      TipsStrictlyGrow(x, r.accepted, i, j);
    } else if j < i {
      TipsStrictlyGrow(x, r.accepted, j, i);
    }
  }

  /** What a submission adds: an acceptance and a cached key if it is fresh; and a checkpoint that
      gets registered either has an acceptance of its own or was cached. */
  lemma SubmissionOutcome(x: Setup, r: Run, q: Submission)
    requires q.cp.Some? ==> DeclaredCheckpoint(x, q.bytes) == Ok(None)
    ensures var r' := Submitted(x, r, q); var s, s' := r.w.store, r'.w.store;
      && s'.records == s.records && s'.conflicts == s.conflicts && r'.recorded == r.recorded
      && r.accepted <= r'.accepted
      && (forall p :: p in r'.pending ==> p in r.pending || (q.cp.Some? && p.cp == q.cp.value))
      && (forall k :: k in s'.statements ==> k in s.statements || k == EntryHash(x, q.bytes))
      && (r'.accepted == r.accepted || exists a :: AcceptedNext(x, r, r', a) && Concerns(a, q.cp))
      && (q.cp.Some? && (s'.statements != s.statements || r'.pending != r.pending) ==>
        Lookup(x, s, q.bytes).Some? || AcceptedAt(r', q.cp.value.logId, q.cp.value.size, q.cp.value.root))
  {
    var r', s := Submitted(x, r, q), r.w.store;
    if Fresh(x, r.w, q) {
      FreshIssues(x, r, q);
      FreshAcceptance(x, r, q);
      AppendKeepsReadSurface(x, r.w, q);
      hide Fresh, Register, Committed, Links, AcceptedAt;
      if q.cp.Some? {
        var a :| AcceptedNext(x, r, r', a) && Concerns(a, q.cp);
        AcceptedAtEnd(x, r, r', a);
      }
    } else {
      StaleSubmission(x, r, q);
      OnlyFreshChangesStore(x, r.w, q);
      if q.cp.Some? {
        StaleCheckpointCached(x, r.w, q);
      }
      hide Fresh, Register, Committed, Links, AcceptedAt;
    }
  }

  lemma AcceptedAtEnd(x: Setup, r: Run, r': Run, a: Acceptance)
    requires AcceptedNext(x, r, r', a)
    ensures AcceptedAt(r', LogOf(a), SizeOf(a), NewTip(a).root)
  {
    assert r'.accepted[|r.accepted|] == a;
  }

  lemma StaleCheckpointCached(x: Setup, w: Witness, q: Submission)
    requires !Fresh(x, w, q)
    ensures Register(x, w, q).1.Ok? ==> Lookup(x, w.store, q.bytes).Some?
  {
  }

  lemma {:induction false} FinishKeepsNoFork(x: Setup, ops: seq<Op>, logId: string, r: Run, i: nat)
    requires IsChain(x, r.accepted) && NoForkInv(x, ops, logId, r)
    ensures NoForkInv(x, ops + [FinishCheckpoint(i)], logId, Step(x, r, FinishCheckpoint(i)))
  {
    var r' := Step(x, r, FinishCheckpoint(i));
    CacheSourcedGrows(x, ops, FinishCheckpoint(i), r, r');
    AcceptedAtGrows(r, r');
    hide AcceptedAt, CameFrom, CacheSourced, IsChain, OnlyMoves;
    if i < |r.pending| {
      var p := r.pending[i];
      assert p in r.pending;
      if p.cp.logId == logId && (logId, p.cp.size) in r.w.store.records {
        OneRootPerPosition(x, r, logId, p.cp.size, p.cp.root, r.w.store.records[(logId, p.cp.size)].root);
      }
    }
  }

  lemma CacheSourcedGrows(x: Setup, ops: seq<Op>, op: Op, r: Run, r': Run)
    requires CacheSourced(x, ops, r) && r.accepted <= r'.accepted
    requires forall k :: k in r'.w.store.statements ==> k in r.w.store.statements
    ensures CacheSourced(x, ops + [op], r')
  {
    CameFromGrows(x, ops, ops + [op], r, r');
    hide CameFrom;
  }

  lemma CameFromGrows(x: Setup, ops: seq<Op>, ops': seq<Op>, r: Run, r': Run)
    requires ops <= ops' && r.accepted <= r'.accepted
    ensures forall op, k :: op in ops && CameFrom(x, r, op, k) ==> op in ops' && CameFrom(x, r', op, k)
  {
    AcceptedAtGrows(r, r');
    assert ops' == ops + ops'[|ops|..];
  }

  /** The outcome of a submission operation of a run. */
  lemma OperationOutcome(x: Setup, r: Run, op: Op)
    requires Faithful(x) && IsSubmission(op)
    ensures var r' := Step(x, r, op); var s, s', key := r.w.store, r'.w.store, EntryHash(x, OpBytes(x, op));
      && s'.records == s.records && s'.conflicts == s.conflicts && r.accepted <= r'.accepted
      && (forall p :: p in r'.pending ==> p in r.pending || (op.SubmitCheckpoint? && p.cp == op.cp))
      && (forall k :: k in s'.statements ==> k in s.statements || k == key)
      && (r'.accepted == r.accepted || exists a :: AcceptedNext(x, r, r', a) && Concerns(a, CheckpointOf(op)))
      && (op.SubmitCheckpoint? && (s'.statements != s.statements || r'.pending != r.pending) ==>
        Lookup(x, s, OpBytes(x, op)).Some? || AcceptedAt(r', op.cp.logId, op.cp.size, op.cp.root))
  {
    if op.SubmitCheckpoint? {
      DigestDeclaresNothing(x, BodyOf(op.cp));
    }
    SubmissionOutcome(x, r, SubmissionOf(x, op));
    hide Submitted, AcceptedNext, AcceptedAt;
  }

  function CheckpointOf(op: Op): Option<Checkpoint> {
    if op.SubmitCheckpoint? then Some(op.cp) else None
  }

  lemma SubmissionKeepsMoves(x: Setup, ops: seq<Op>, logId: string, r: Run, op: Op)
    requires x.policy == Enforce && Faithful(x) && IsSubmission(op) && NativeOnly(ops + [op], logId)
    requires OnlyMoves(r.accepted, logId)
    ensures OnlyMoves(Step(x, r, op).accepted, logId)
  {
    hide Step, AcceptedAt, LastTip, OpBytes, EntryHash, LegacyHash, Lookup;
    OperationOutcome(x, r, op);
    var r' := Step(x, r, op);
    assert op in ops + [op];
    if r'.accepted != r.accepted {
      var a :| AcceptedNext(x, r, r', a) && Concerns(a, CheckpointOf(op));
      assert LogOf(a) == logId ==> Moves(a);
    }
  }

  lemma SubmissionKeepsSources(x: Setup, ops: seq<Op>, r: Run, op: Op)
    requires Faithful(x) && IsSubmission(op) && CacheSourced(x, ops, r)
    ensures CacheSourced(x, ops + [op], Step(x, r, op))
  {
    OperationOutcome(x, r, op);
    hide Step, AcceptedNext, EntryHash;
    var r' := Step(x, r, op);
    CameFromGrows(x, ops, ops + [op], r, r');
    forall k | k in r'.w.store.statements ensures exists o :: o in ops + [op] && CameFrom(x, r', o, k) {
      if k in r.w.store.statements {
        var o :| o in ops && CameFrom(x, r, o, k);
        assert o in ops + [op] && CameFrom(x, r', o, k);
      } else {
        assert op in ops + [op] && CameFrom(x, r', op, k);
      }
    }
  }

  lemma SubmissionKeepsRegistered(x: Setup, ops: seq<Op>, logId: string, r: Run, op: Op)
    requires Faithful(x) && IsSubmission(op) && DigestsNotReused(x, ops + [op], logId)
    requires RegisteredAccepted(r, logId) && CacheSourced(x, ops, r)
    ensures RegisteredAccepted(Step(x, r, op), logId)
  {
    hide Step, AcceptedNext, EntryHash, LegacyHash, OpBytes, Concerns;
    OperationOutcome(x, r, op);
    var r', b := Step(x, r, op), OpBytes(x, op);
    AcceptedAtGrows(r, r');
    if ChecksLog(op, logId) && Lookup(x, r.w.store, b).Some? {
      var key := if EntryHash(x, b) in r.w.store.statements then EntryHash(x, b) else LegacyHash(x, b);
      var other :| other in ops && CameFrom(x, r, other, key);
      assert other in ops + [op] && op in ops + [op];
      assert BodyOf(other.cp) == BodyOf(op.cp);
      assert AcceptedAt(r, logId, op.cp.size, op.cp.root);
    }
    hide AcceptedAt, CameFrom;
  }

  lemma SubmissionKeepsNoFork(x: Setup, ops: seq<Op>, logId: string, r: Run, op: Op)
    requires x.policy == Enforce && Faithful(x) && IsSubmission(op)
    requires NativeOnly(ops + [op], logId) && DigestsNotReused(x, ops + [op], logId)
    requires NoForkInv(x, ops, logId, r)
    ensures NoForkInv(x, ops + [op], logId, Step(x, r, op))
  {
    SubmissionKeepsMoves(x, ops, logId, r, op);
    SubmissionKeepsSources(x, ops, r, op);
    SubmissionKeepsRegistered(x, ops, logId, r, op);
    OperationOutcome(x, r, op);
    hide Step, OnlyMoves, RegisteredAccepted, CacheSourced, AcceptedNext, AcceptedAt;
  }

  lemma {:induction false} StepKeepsNoFork(x: Setup, ops: seq<Op>, logId: string, r: Run, op: Op)
    requires x.policy == Enforce && Faithful(x)
    requires NativeOnly(ops + [op], logId) && DigestsNotReused(x, ops + [op], logId)
    requires IsChain(x, r.accepted) && NoForkInv(x, ops, logId, r)
    ensures NoForkInv(x, ops + [op], logId, Step(x, r, op))
  {
    match op
    case Submit(_, _, _) => SubmissionKeepsNoFork(x, ops, logId, r, op);
    case SubmitCheckpoint(_, _, _) => SubmissionKeepsNoFork(x, ops, logId, r, op);
    case FinishCheckpoint(i) => FinishKeepsNoFork(x, ops, logId, r, i);
    case _ =>
      hide HashChain.RootAt, LastTip;
      var r' := Step(x, r, op);
      assert r'.accepted == r.accepted && r'.pending == r.pending && r'.recorded == r.recorded;
      CacheSourcedGrows(x, ops, op, r, r');
      AcceptedAtGrows(r, r');
      hide AcceptedAt, CacheSourced;
  }

  lemma {:induction false} ExecKeepsNoFork(x: Setup, ops: seq<Op>, logId: string)
    requires x.policy == Enforce && Faithful(x) && NativeOnly(ops, logId) && DigestsNotReused(x, ops, logId)
    ensures NoForkInv(x, ops, logId, Exec(x, ops))
  {
    if ops != [] {
      hide Step;
      var front, op := ops[..|ops| - 1], ops[|ops| - 1];
      assert ops == front + [op];
      PrefixConditions(x, front, op, logId);
      ExecKeepsNoFork(x, front, logId);
      TipsFormAChain(x, front);
      StepKeepsNoFork(x, front, logId, Exec(x, front), op);
    }
  }

  lemma PrefixConditions(x: Setup, front: seq<Op>, op: Op, logId: string)
    requires NativeOnly(front + [op], logId) && DigestsNotReused(x, front + [op], logId)
    ensures NativeOnly(front, logId) && DigestsNotReused(x, front, logId)
  {
    assert forall o :: o in front ==> o in front + [op];
  }

  /** Under enforce, a log that receives only native checkpoints and declared ones, none of whose
      digests is registered any other way, never has an equivocation recorded, and every newly
      accepted checkpoint is strictly larger than all accepted before it. */
  lemma {:induction false} EnforceAdmitsNoFork(x: Setup, ops: seq<Op>, logId: string)
    requires x.policy == Enforce && Faithful(x) && NativeOnly(ops, logId) && DigestsNotReused(x, ops, logId)
    ensures ConflictsOf(Exec(x, ops).w.store, logId) == []
    ensures var accepted := Exec(x, ops).accepted;
      forall i, j :: 0 <= i < j < |accepted| && LogOf(accepted[i]) == logId && LogOf(accepted[j]) == logId
        ==> SizeOf(accepted[i]) < SizeOf(accepted[j])
  {
    ExecKeepsNoFork(x, ops, logId);
    TipsFormAChain(x, ops);
    var accepted := Exec(x, ops).accepted;
    forall i, j | 0 <= i < j < |accepted| && LogOf(accepted[i]) == logId && LogOf(accepted[j]) == logId
      ensures SizeOf(accepted[i]) < SizeOf(accepted[j])
    {
      TipsStrictlyGrow(x, accepted, i, j);
    }
  }

  /** The last condition is needed, and exactly so: a native checkpoint for a position of such a log
      that is already taken is accepted if and only if its digest is in the dedup cache. */
  lemma {:induction false} TakenPositionNeedsCacheHit(x: Setup, ops: seq<Op>, cp: Checkpoint, loggedAt: int,
                                                      headAt: int)
    requires x.policy == Enforce && Faithful(x)
    requires NativeOnly(ops, cp.logId) && DigestsNotReused(x, ops, cp.logId)
    requires IsNative(cp)
    requires (cp.logId, cp.size) in Exec(x, ops).w.store.records
    ensures RegisterCheckpoint(x, Exec(x, ops).w, cp, loggedAt, headAt).1.Ok?
      <==> Lookup(x, Exec(x, ops).w.store, CheckpointBytes(x, BodyOf(cp))).Some?
  {
    var r, b := Exec(x, ops), CheckpointBytes(x, BodyOf(cp));
    ExecKeepsNoFork(x, ops, cp.logId);
    TipsFormAChain(x, ops);
    TakenMeansBehindTip(x, ops, cp.logId, r, cp.size);
    DigestDeclaresNothing(x, BodyOf(cp));
    hide NoForkInv, IsChain, LastTip, EntryHash;
    OldPositionRefused(x, r.w, cp, loggedAt, headAt);
  }

  /** A position on the read surface of a fork-free log is not beyond its tip. */
  lemma TakenMeansBehindTip(x: Setup, ops: seq<Op>, logId: string, r: Run, size: int)
    requires NoForkInv(x, ops, logId, r) && TipInv(x, r) && (logId, size) in r.w.store.records
    ensures logId in r.w.store.tips && size <= r.w.store.tips[logId].size
  {
    assert AcceptedAt(r, logId, size, r.w.store.records[(logId, size)].root);
    var i :| 0 <= i < |r.accepted| && IsFor(r.accepted[i], logId, size, r.w.store.records[(logId, size)].root);
    hide CacheSourced, RegisteredAccepted, AcceptedAt, TipInv;
    TipNotBehind(x, r, i);
  }

  /** Without a cache hit a checkpoint no larger than the tip is refused under enforce. */
  lemma OldPositionRefused(x: Setup, w: Witness, cp: Checkpoint, loggedAt: int, headAt: int)
    requires x.policy == Enforce && IsNative(cp) && Faithful(x)
    requires cp.logId in w.store.tips && cp.size <= w.store.tips[cp.logId].size
    ensures RegisterCheckpoint(x, w, cp, loggedAt, headAt).1.Ok?
      <==> Lookup(x, w.store, CheckpointBytes(x, BodyOf(cp))).Some?
  {
    DigestDeclaresNothing(x, BodyOf(cp));
    hide AppendStatement, Lookup, DeclaredCheckpoint, CheckpointBytes;
  }
}
