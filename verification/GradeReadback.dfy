// The grade a resubmitted checkpoint is told, against the grade it earned when it was accepted.
module GradeReadback {
  import opened Basics
  import opened Authority
  import opened Checkpoints
  import opened WitnessState
  import opened WitnessRuns
  import opened TipChain
  import ReceiptGuarantees
  import HashChain

  function KeyOf(x: Setup, cp: Checkpoint): Digest {
    EntryHash(x, CheckpointBytes(x, BodyOf(cp)))
  }

  predicate AcceptedUnder(x: Setup, a: Acceptance, key: Digest) {
    a.Direct? && KeyOf(x, a.cp) == key
  }

  predicate AcceptedFor(x: Setup, a: Acceptance, logId: string, size: int, key: Digest, g: Grade) {
    AcceptedUnder(x, a, key) && a.cp.logId == logId && a.cp.size == size && a.grade == g
  }

  /** No grade, or one earned by a checkpoint of that position and entry hash. */
  ghost predicate Earned(x: Setup, accepted: seq<Acceptance>, logId: string, size: int, key: Digest, g: Option<Grade>) {
    g.None? || exists a :: a in accepted && AcceptedFor(x, a, logId, size, key, g.value)
  }

  ghost predicate RecordEarned(x: Setup, r: Run, logId: string, size: int) {
    && (logId, size) in r.w.store.records
    && var rec := r.w.store.records[(logId, size)];
       Earned(x, r.accepted, logId, size, rec.entryHash, rec.continuityGrade)
  }

  /** A registered checkpoint earned its grade, or was told that of the record at its position. */
  ghost predicate PendingEarned(x: Setup, r: Run, p: Pending) {
    || Earned(x, r.accepted, p.cp.logId, p.cp.size, p.result.entryHash, p.result.continuityGrade)
    || (p.cp.logId, p.cp.size) in r.w.store.records
  }

  ghost predicate GradesInv(x: Setup, r: Run) {
    && (forall logId, size :: (logId, size) in r.w.store.records ==> RecordEarned(x, r, logId, size))
    && (forall p :: p in r.pending ==> PendingEarned(x, r, p))
  }

  lemma EarnedGrows(x: Setup, accepted: seq<Acceptance>, more: seq<Acceptance>)
    ensures forall logId, size, key, g ::
      Earned(x, accepted, logId, size, key, g) ==> Earned(x, accepted + more, logId, size, key, g)
  {
    hide AcceptedFor;
    forall logId, size, key, g | Earned(x, accepted, logId, size, key, g)
      ensures Earned(x, accepted + more, logId, size, key, g)
    {
      if g.Some? {
        var a :| a in accepted && AcceptedFor(x, a, logId, size, key, g.value);
        assert a in accepted + more;
      }
    }
  }

  /** What a checkpoint submission adds to a run, graded by the gate or by the record it finds. */
  lemma SubmissionGrades(x: Setup, r: Run, q: Submission)
    ensures var r', res := Submitted(x, r, q), Register(x, r.w, q).1;
      && r'.w.store.records == r.w.store.records && r.accepted <= r'.accepted
      && r'.pending == r.pending + (if res.Ok? && q.cp.Some? then [Pending(q.cp.value, res.value)] else [])
      && (res.Ok? && q.cp.Some? ==>
        if Fresh(x, r.w, q) then
          && res.value.continuityGrade.Some? && res.value.entryHash == EntryHash(x, q.bytes)
          && Direct(q.cp.value, res.value.continuityGrade.value, TipOfLog(r.w.store.tips, q.cp.value.logId))
            in r'.accepted
        else
          && res.value.continuityGrade == GradeOn(r.w.store, q.cp.value)
          && res.value.entryHash in r.w.store.statements)
  {
    OnlyFreshChangesStore(x, r.w, q);
    if Fresh(x, r.w, q) {
      FreshIssues(x, r, q);
      AppendKeepsReadSurface(x, r.w, q);
    }
    hide AppendStatement, Committed, Lookup, DeclaredCheckpoint;
  }

  /** The grade on the record at a checkpoint's position. */
  function GradeOn(s: Store, cp: Checkpoint): Option<Grade> {
    if (cp.logId, cp.size) in s.records then s.records[(cp.logId, cp.size)].continuityGrade else None
  }

  lemma SubmittedKeepsGrades(x: Setup, r: Run, q: Submission)
    requires GradesInv(x, r) && (q.cp.Some? ==> q.bytes == CheckpointBytes(x, BodyOf(q.cp.value)))
    ensures GradesInv(x, Submitted(x, r, q))
  {
    var r', res := Submitted(x, r, q), Register(x, r.w, q).1;
    SubmissionGrades(x, r, q);
    assert r'.accepted == r.accepted + r'.accepted[|r.accepted|..];
    EarnedGrows(x, r.accepted, r'.accepted[|r.accepted|..]);
    if res.Ok? && q.cp.Some? && Fresh(x, r.w, q) {
      var a := Direct(q.cp.value, res.value.continuityGrade.value, TipOfLog(r.w.store.tips, q.cp.value.logId));
      assert AcceptedFor(x, a, a.cp.logId, a.cp.size, res.value.entryHash, a.grade);
    }
    hide Submitted, Register, Earned, Fresh, EntryHash, AcceptedFor;
    forall logId, size | (logId, size) in r'.w.store.records ensures RecordEarned(x, r', logId, size) {
      assert RecordEarned(x, r, logId, size);
    }
    forall p | p in r'.pending ensures PendingEarned(x, r', p) {
      if p in r.pending {
        assert PendingEarned(x, r, p);
      }
    }
  }

  lemma FinishKeepsGrades(x: Setup, r: Run, i: nat)
    requires GradesInv(x, r)
    ensures GradesInv(x, Step(x, r, FinishCheckpoint(i)))
  {
    hide Earned;
    var r' := Step(x, r, FinishCheckpoint(i));
    if i < |r.pending| {
      assert PendingEarned(x, r, r.pending[i]);
      forall logId, size | (logId, size) in r'.w.store.records ensures RecordEarned(x, r', logId, size) {
        if (logId, size) in r.w.store.records {
          assert RecordEarned(x, r, logId, size);
        }
      }
      forall p | p in r'.pending ensures PendingEarned(x, r', p) {
        assert p in r.pending && PendingEarned(x, r, p);
      }
    }
  }

  lemma StepKeepsGrades(x: Setup, r: Run, op: Op)
    requires GradesInv(x, r)
    ensures GradesInv(x, Step(x, r, op))
  {
    match op
    case Submit(_, _, _) => SubmittedKeepsGrades(x, r, SubmissionOf(x, op));
    case SubmitCheckpoint(_, _, _) => SubmittedKeepsGrades(x, r, SubmissionOf(x, op));
    case FinishCheckpoint(i) => FinishKeepsGrades(x, r, i);
    case _ =>
      hide HashChain.RootAt, Earned;
      var r' := Step(x, r, op);
      assert r'.w.store.records == r.w.store.records && r'.pending == r.pending && r'.accepted == r.accepted;
      forall logId, size | (logId, size) in r'.w.store.records ensures RecordEarned(x, r', logId, size) {
        assert RecordEarned(x, r, logId, size);
      }
      forall p | p in r'.pending ensures PendingEarned(x, r', p) {
        assert PendingEarned(x, r, p);
      }
  }

  /** In every run, every grade on the read surface was earned by a checkpoint of that position under
      the entry hash that the record shows. */
  lemma {:induction false} ExecKeepsGrades(x: Setup, ops: seq<Op>)
    ensures GradesInv(x, Exec(x, ops))
  {
    if ops != [] {
      hide GradesInv, Step;
      ExecKeepsGrades(x, ops[..|ops| - 1]);
      StepKeepsGrades(x, Exec(x, ops[..|ops| - 1]), ops[|ops| - 1]);
    }
  }

  // ---------------------------------------------------------------- one acceptance an entry hash

  ghost predicate OnceAccepted(x: Setup, r: Run, key: Digest) {
    && (forall i :: 0 <= i < |r.accepted| && AcceptedUnder(x, r.accepted[i], key) ==> key in r.w.store.statements)
    && (forall i, j :: 0 <= i < j < |r.accepted| ==>
      !AcceptedUnder(x, r.accepted[i], key) || !AcceptedUnder(x, r.accepted[j], key))
  }

  lemma SubmittedKeepsOnceAccepted(x: Setup, r: Run, q: Submission, key: Digest)
    requires Faithful(x) && OnceAccepted(x, r, key)
    requires q.cp.Some? ==> q.bytes == CheckpointBytes(x, BodyOf(q.cp.value))
    ensures OnceAccepted(x, Submitted(x, r, q), key)
  {
    var r' := Submitted(x, r, q);
    if q.cp.Some? {
      DigestDeclaresNothing(x, BodyOf(q.cp.value));
    }
    if Fresh(x, r.w, q) {
      FreshIssues(x, r, q);
      FreshAcceptance(x, r, q);
      ReceiptGuarantees.LookupNone(x, r.w.store, q.bytes);
      hide Submitted, Fresh, Committed, Lookup, DeclaredCheckpoint, CheckpointBytes, EntryHash, Links;
      if a :| AcceptedNext(x, r, r', a) && Concerns(a, q.cp) {
        assert AcceptedUnder(x, a, key) ==> key == EntryHash(x, q.bytes);
      }
    } else {
      StaleSubmission(x, r, q);
    }
  }

  lemma {:induction false} StepKeepsOnceAccepted(x: Setup, r: Run, op: Op, key: Digest)
    requires Faithful(x) && OnceAccepted(x, r, key) && key !in Step(x, r, op).pruned
    ensures OnceAccepted(x, Step(x, r, op), key)
  {
    match op
    case Submit(_, _, _) => SubmittedKeepsOnceAccepted(x, r, SubmissionOf(x, op), key);
    case SubmitCheckpoint(_, _, _) => SubmittedKeepsOnceAccepted(x, r, SubmissionOf(x, op), key);
    case _ => hide HashChain.RootAt, CheckpointBytes, EntryHash;
  }

  /** Without a prune of its entry hash a checkpoint is accepted at most once, and stays cached. */
  lemma {:induction false} AcceptedOnce(x: Setup, ops: seq<Op>, key: Digest)
    requires Faithful(x) && key !in Exec(x, ops).pruned
    ensures OnceAccepted(x, Exec(x, ops), key)
  {
    if ops != [] {
      hide OnceAccepted, Step;
      var front, op := ops[..|ops| - 1], ops[|ops| - 1];
      ReceiptGuarantees.StepGrows(x, Exec(x, front), op);
      AcceptedOnce(x, front, key);
      StepKeepsOnceAccepted(x, Exec(x, front), op, key);
    }
  }

  // ---------------------------------------------------------------- the grade a resubmission is told

  /** The position's record says what the i-th acceptance earned: it is graded, and either it is that
      checkpoint's own, or both checkpoints were merely registered. */
  predicate Tells(x: Setup, s: Store, a: Acceptance)
    requires a.Direct?
  {
    && (a.cp.logId, a.cp.size) in s.records
    && var rec := s.records[(a.cp.logId, a.cp.size)];
       && rec.continuityGrade.Some?
       && (rec.entryHash == KeyOf(x, a.cp) || (a.grade == Registered && rec.continuityGrade == Some(Registered)))
  }

  /** A record of another checkpoint never has the grade an acceptance earned, unless both were merely
      registered: no two checkpoints of one size can both have moved the tip. */
  lemma {:induction false} OtherRecordOtherGrade(x: Setup, r: Run, i: nat)
    requires IsChain(x, r.accepted) && i < |r.accepted| && r.accepted[i].Direct?
    requires RecordEarned(x, r, r.accepted[i].cp.logId, r.accepted[i].cp.size)
    requires var a := r.accepted[i]; var rec := r.w.store.records[(a.cp.logId, a.cp.size)];
      rec.entryHash != KeyOf(x, a.cp) && rec.continuityGrade == Some(a.grade)
    ensures r.accepted[i].grade == Registered
  {
    hide KeyOf, Links;
    var a := r.accepted[i];
    var rec := r.w.store.records[(a.cp.logId, a.cp.size)];
    var b :| b in r.accepted && AcceptedFor(x, b, a.cp.logId, a.cp.size, rec.entryHash, a.grade);
    var j :| 0 <= j < |r.accepted| && r.accepted[j] == b;
    if a.grade != Registered {
      if i < j {
        TipsStrictlyGrow(x, r.accepted, i, j);
      } else if j < i {
        TipsStrictlyGrow(x, r.accepted, j, i);
      }
    }
  }

  lemma {:induction false} OwnRecordOwnGrade(x: Setup, r: Run, i: nat)
    requires i < |r.accepted| && r.accepted[i].Direct? && OnlyAcceptance(x, r.accepted, i)
    requires RecordEarned(x, r, r.accepted[i].cp.logId, r.accepted[i].cp.size)
    requires var a := r.accepted[i]; var rec := r.w.store.records[(a.cp.logId, a.cp.size)];
      rec.entryHash == KeyOf(x, a.cp) && rec.continuityGrade.Some?
    ensures var a := r.accepted[i];
      r.w.store.records[(a.cp.logId, a.cp.size)].continuityGrade == Some(a.grade)
  {
    hide KeyOf;
    var a := r.accepted[i];
    var rec := r.w.store.records[(a.cp.logId, a.cp.size)];
    var b :| b in r.accepted && AcceptedFor(x, b, a.cp.logId, a.cp.size, rec.entryHash, rec.continuityGrade.value);
    var j :| 0 <= j < |r.accepted| && r.accepted[j] == b;
    assert AcceptedUnder(x, r.accepted[j], rec.entryHash);
  }

  /** A hit is told the grade on the record at its position, and none without a record. */
  lemma HitIsToldRecord(x: Setup, w: Witness, cp: Checkpoint, loggedAt: int, headAt: int)
    requires Faithful(x) && Lookup(x, w.store, CheckpointBytes(x, BodyOf(cp))).Some?
    ensures var res := RegisterCheckpoint(x, w, cp, loggedAt, headAt).1;
      res.Ok? && res.value.continuityGrade == GradeOn(w.store, cp)
  {
    DigestDeclaresNothing(x, BodyOf(cp));
    hide Admit, Lookup, CheckpointBytes, DeclaredCheckpoint;
  }

  /** No other checkpoint was accepted under the entry hash of the i-th acceptance. */
  predicate OnlyAcceptance(x: Setup, accepted: seq<Acceptance>, i: nat)
    requires i < |accepted| && accepted[i].Direct?
  {
    forall j :: 0 <= j < |accepted| && AcceptedUnder(x, accepted[j], KeyOf(x, accepted[i].cp)) ==> j == i
  }

  /** Both hold of every accepted checkpoint whose entry hash was not pruned. */
  lemma {:induction false} UnprunedIsHit(x: Setup, ops: seq<Op>, i: nat)
    requires Faithful(x) && i < |Exec(x, ops).accepted| && Exec(x, ops).accepted[i].Direct?
    requires KeyOf(x, Exec(x, ops).accepted[i].cp) !in Exec(x, ops).pruned
    ensures var r := Exec(x, ops);
      OnlyAcceptance(x, r.accepted, i) && Lookup(x, r.w.store, CheckpointBytes(x, BodyOf(r.accepted[i].cp))).Some?
  {
    var r := Exec(x, ops);
    var a := r.accepted[i];
    AcceptedOnce(x, ops, KeyOf(x, a.cp));
    assert AcceptedUnder(x, a, KeyOf(x, a.cp));
  }

  /** In every run, whatever came between the two sections of any checkpoint: resubmitting a cached
      checkpoint that was accepted once returns the grade it earned if and only if the record at its
      position Tells it. Without a record it returns none. */
  lemma {:induction false} GradeReadBack(x: Setup, ops: seq<Op>, i: nat, again: Checkpoint, loggedAt: int, headAt: int)
    requires Faithful(x) && i < |Exec(x, ops).accepted| && Exec(x, ops).accepted[i].Direct?
    requires BodyOf(again) == BodyOf(Exec(x, ops).accepted[i].cp) && OnlyAcceptance(x, Exec(x, ops).accepted, i)
    requires Lookup(x, Exec(x, ops).w.store, CheckpointBytes(x, BodyOf(again))).Some?
    ensures var r := Exec(x, ops); var a, res := r.accepted[i], RegisterCheckpoint(x, r.w, again, loggedAt, headAt).1;
      && res.Ok?
      && (res.value.continuityGrade == Some(a.grade) <==> Tells(x, r.w.store, a))
      && ((a.cp.logId, a.cp.size) !in r.w.store.records ==> res.value.continuityGrade == None)
  {
    var r := Exec(x, ops);
    var a := r.accepted[i];
    TipsFormAChain(x, ops);
    ExecKeepsGrades(x, ops);
    HitIsToldRecord(x, r.w, again, loggedAt, headAt);
    hide RegisterCheckpoint, Exec, IsChain, RecordEarned, PendingEarned, OnlyAcceptance, KeyOf;
    if (a.cp.logId, a.cp.size) in r.w.store.records {
      var rec := r.w.store.records[(a.cp.logId, a.cp.size)];
      assert RecordEarned(x, r, a.cp.logId, a.cp.size);
      if rec.entryHash == KeyOf(x, a.cp) && rec.continuityGrade.Some? {
        OwnRecordOwnGrade(x, r, i);
      } else if rec.continuityGrade == Some(a.grade) {
        OtherRecordOtherGrade(x, r, i);
      }
    }
  }

  // ---------------------------------------------------------------- with nothing between the sections

  /** A run in which the two sections of every checkpoint are adjacent. */
  function Adjacent(ops: seq<Op>): seq<Op> {
    if ops == [] then []
    else
      var op := ops[|ops| - 1];
      Adjacent(ops[..|ops| - 1])
        + if op.SubmitCheckpoint? then [op, FinishCheckpoint(0)] else if op.FinishCheckpoint? then [] else [op]
  }

  /** An ungraded record shows an entry hash that was in the cache before any acceptance under it. */
  ghost predicate UngradedWasHit(x: Setup, r: Run, logId: string, size: int) {
    (logId, size) in r.w.store.records && r.w.store.records[(logId, size)].continuityGrade.None? ==>
      var key := r.w.store.records[(logId, size)].entryHash;
      && (key in r.w.store.statements || key in r.pruned)
      && forall a :: a in r.accepted && AcceptedUnder(x, a, key) && a.cp.logId == logId && a.cp.size == size ==>
           key in r.pruned
  }

  ghost predicate AcceptedRecorded(r: Run) {
    forall a :: a in r.accepted && a.Direct? ==> (a.cp.logId, a.cp.size) in r.w.store.records
  }

  ghost predicate AdjacentInv(x: Setup, r: Run) {
    r.pending == [] && AcceptedRecorded(r) && forall logId, size :: UngradedWasHit(x, r, logId, size)
  }

  /** Where no checkpoint is registered, entry hashes only leave the cache by being pruned. */
  lemma OtherStepKeepsAdjacent(x: Setup, r: Run, op: Op)
    requires AdjacentInv(x, r) && !op.SubmitCheckpoint? && !op.FinishCheckpoint?
    ensures AdjacentInv(x, Step(x, r, op))
  {
    var r' := Step(x, r, op);
    OtherStepQuiet(x, r, op);
    hide Step;
    forall logId, size ensures UngradedWasHit(x, r', logId, size) {
      assert UngradedWasHit(x, r, logId, size);
    }
  }

  lemma OtherStepQuiet(x: Setup, r: Run, op: Op)
    requires !op.SubmitCheckpoint? && !op.FinishCheckpoint?
    ensures var r' := Step(x, r, op);
      && r'.pending == r.pending && r'.w.store.records == r.w.store.records && r.pruned <= r'.pruned
      && (forall a :: a in r'.accepted && a.Direct? ==> a in r.accepted)
      && (forall k :: k in r.w.store.statements ==> k in r'.w.store.statements || k in r'.pruned)
  {
    if op.Submit? {
      var q := SubmissionOf(x, op);
      OnlyFreshChangesStore(x, r.w, q);
      if Fresh(x, r.w, q) {
        FreshIssues(x, r, q);
        AppendKeepsReadSurface(x, r.w, q);
      }
      hide Register, Committed, Fresh, Lookup;
    } else {
      hide HashChain.RootAt;
    }
  }

  function Paired(x: Setup, r: Run, op: Op): Run {
    Step(x, Step(x, r, op), FinishCheckpoint(0))
  }

  /** What the two adjacent sections of a checkpoint do together. */
  lemma PairOutcome(x: Setup, r: Run, op: Op)
    requires Faithful(x) && r.pending == [] && op.SubmitCheckpoint?
    ensures var r', q, pos := Paired(x, r, op), SubmissionOf(x, op), (op.cp.logId, op.cp.size);
      var s, s', isNew := r.w.store, r'.w.store, Fresh(x, r.w, SubmissionOf(x, op));
      && r'.pending == [] && r'.pruned == r.pruned
      && (forall k :: k in s.statements ==> k in s'.statements)
      && (forall l, z :: (l, z) != pos || pos in s.records ==>
        ((l, z) in s'.records <==> (l, z) in s.records)
        && ((l, z) in s.records ==> s'.records[(l, z)] == s.records[(l, z)]))
      && (forall a :: a in r'.accepted ==> a in r.accepted || (isNew && a.Direct? && a.cp == op.cp))
      && (isNew ==> KeyOf(x, op.cp) !in s.statements && pos in s'.records)
      && (pos !in s.records && pos in s'.records ==>
        if isNew then s'.records[pos].continuityGrade.Some?
        else s'.records[pos].continuityGrade.None? && s'.records[pos].entryHash in s.statements)
  {
    RegisterOutcome(x, r, op);
    FinishOutcome(x, Step(x, r, op));
    hide Step, Fresh, KeyOf;
  }

  lemma RegisterOutcome(x: Setup, r: Run, op: Op)
    requires Faithful(x) && r.pending == [] && op.SubmitCheckpoint?
    ensures var r', s, isNew := Step(x, r, op), r.w.store, Fresh(x, r.w, SubmissionOf(x, op));
      && r'.pruned == r.pruned && r'.w.store.records == s.records
      && (forall k :: k in s.statements ==> k in r'.w.store.statements)
      && (forall a :: a in r'.accepted ==> a in r.accepted || (isNew && a.Direct? && a.cp == op.cp))
      && (isNew ==> KeyOf(x, op.cp) !in s.statements && r'.pending != [])
      && (r'.pending != [] ==>
        && |r'.pending| == 1 && r'.pending[0].cp == op.cp
        && var res := r'.pending[0].result;
           if isNew then res.continuityGrade.Some?
           else res.continuityGrade == GradeOn(s, op.cp) && res.entryHash in s.statements)
  {
    var q := SubmissionOf(x, op);
    DigestDeclaresNothing(x, BodyOf(op.cp));
    SubmissionGrades(x, r, q);
    OnlyFreshChangesStore(x, r.w, q);
    if Fresh(x, r.w, q) {
      FreshIssues(x, r, q);
      FreshAcceptance(x, r, q);
      ReceiptGuarantees.LookupNone(x, r.w.store, q.bytes);
    } else {
      StaleSubmission(x, r, q);
    }
    hide Submitted, Register, Fresh, Committed, Lookup, Links, EntryHash, CheckpointBytes, DeclaredCheckpoint;
  }

  lemma FinishOutcome(x: Setup, r: Run)
    requires |r.pending| <= 1
    ensures var r' := Step(x, r, FinishCheckpoint(0));
      && r'.pending == [] && r'.pruned == r.pruned && r'.accepted == r.accepted
      && r'.w.store.statements == r.w.store.statements
      && (r.pending == [] ==> r'.w.store.records == r.w.store.records)
      && (r.pending != [] ==>
        var p := r.pending[0];
        r'.w.store.records == if (p.cp.logId, p.cp.size) in r.w.store.records then r.w.store.records
                              else r.w.store.records[(p.cp.logId, p.cp.size) := RecordOf(p.cp, p.result)])
  {
  }

  lemma PairKeepsAdjacent(x: Setup, r: Run, op: Op)
    requires Faithful(x) && AdjacentInv(x, r) && op.SubmitCheckpoint?
    ensures AdjacentInv(x, Paired(x, r, op))
  {
    var r', pos := Paired(x, r, op), (op.cp.logId, op.cp.size);
    PairOutcome(x, r, op);
    hide Paired, Fresh, KeyOf;
    forall logId, size ensures UngradedWasHit(x, r', logId, size) {
      assert UngradedWasHit(x, r, logId, size);
    }
  }

  lemma {:induction false} ExecKeepsAdjacent(x: Setup, ops: seq<Op>)
    requires Faithful(x)
    ensures AdjacentInv(x, Exec(x, Adjacent(ops)))
  {
    if ops != [] {
      hide AdjacentInv, Step;
      var front, op := Adjacent(ops[..|ops| - 1]), ops[|ops| - 1];
      ExecKeepsAdjacent(x, ops[..|ops| - 1]);
      if op.SubmitCheckpoint? {
        ExecTwo(x, front, op, FinishCheckpoint(0));
        PairKeepsAdjacent(x, Exec(x, front), op);
      } else if op.FinishCheckpoint? {
        assert front + [] == front;
      } else {
        ExecOne(x, front, op);
        OtherStepKeepsAdjacent(x, Exec(x, front), op);
      }
    }
  }

  /** With the two sections of every checkpoint adjacent there is always a record, and the earned grade
      is returned if and only if that record shows the checkpoint's own entry hash, or is another
      checkpoint's and both were merely registered. */
  lemma {:induction false} AdjacentGradeReadBack(x: Setup, ops: seq<Op>, i: nat, again: Checkpoint, loggedAt: int,
                                                 headAt: int)
    requires Faithful(x) && i < |Exec(x, Adjacent(ops)).accepted| && Exec(x, Adjacent(ops)).accepted[i].Direct?
    requires BodyOf(again) == BodyOf(Exec(x, Adjacent(ops)).accepted[i].cp)
    requires KeyOf(x, again) !in Exec(x, Adjacent(ops)).pruned
    ensures var r := Exec(x, Adjacent(ops)); var a, pos := r.accepted[i], (again.logId, again.size);
      var res := RegisterCheckpoint(x, r.w, again, loggedAt, headAt).1;
      && res.Ok? && pos in r.w.store.records
      && var rec := r.w.store.records[pos];
         (res.value.continuityGrade == Some(a.grade) <==>
           rec.entryHash == KeyOf(x, again) || (a.grade == Registered && rec.continuityGrade == Some(Registered)))
  {
    var r := Exec(x, Adjacent(ops));
    ExecKeepsAdjacent(x, ops);
    UnprunedIsHit(x, Adjacent(ops), i);
    GradeReadBack(x, Adjacent(ops), i, again, loggedAt, headAt);
    hide Exec, RegisterCheckpoint, Lookup, CheckpointBytes;
    var a := r.accepted[i];
    HitIsToldRecord(x, r.w, again, loggedAt, headAt);
    assert KeyOf(x, a.cp) == KeyOf(x, again);
    assert a in r.accepted && UngradedWasHit(x, r, a.cp.logId, a.cp.size);
  }

  // ---------------------------------------------------------------- runs in which it is not returned

  lemma FirstRegistered(x: Setup, cp: Checkpoint, at: int)
    requires Faithful(x)
    ensures var r := Step(x, START, SubmitCheckpoint(cp, at, at));
      && r.accepted == [Direct(cp, FirstSeen, None)] && |r.pending| == 1 && r.pending[0].cp == cp
      && r.pending[0].result.continuityGrade == Some(FirstSeen)
      && r.w.store.records == map[] && KeyOf(x, cp) in r.w.store.statements
      && r.w.store.statements.Keys == {KeyOf(x, cp)}
      && cp.logId in r.w.store.tips && r.w.store.tips[cp.logId] == TipOf(cp)
  {
    var q := FromCheckpoint(x, cp, at, at);
    DigestDeclaresNothing(x, BodyOf(cp));
    assert Fresh(x, EMPTY_WITNESS, q);
    FreshIssues(x, START, q);
    OnlyFreshChangesStore(x, EMPTY_WITNESS, q);
    AppendKeepsReadSurface(x, EMPTY_WITNESS, q);
    hide DeclaredCheckpoint, CheckpointBytes, Lookup, AppendStatement, FromCheckpoint;
  }

  lemma HitRegistered(x: Setup, r: Run, cp: Checkpoint, at: int)
    requires Faithful(x) && Lookup(x, r.w.store, CheckpointBytes(x, BodyOf(cp))).Some?
    ensures var r' := Step(x, r, SubmitCheckpoint(cp, at, at));
      && r'.w == r.w && r'.accepted == r.accepted && |r'.pending| == |r.pending| + 1 && r.pending <= r'.pending
      && r'.pending[|r.pending|].cp == cp
      && r'.pending[|r.pending|].result.continuityGrade == GradeOn(r.w.store, cp)
  {
    HitIsToldRecord(x, r.w, cp, at, at);
    OnlyFreshChangesStore(x, r.w, FromCheckpoint(x, cp, at, at));
    hide Register, Lookup, CheckpointBytes, GradeOn;
  }

  function Overlapped(cp: Checkpoint, at: int): seq<Op> {
    [SubmitCheckpoint(cp, at, at), SubmitCheckpoint(cp, at, at), FinishCheckpoint(1), FinishCheckpoint(0)]
  }

  /** A checkpoint resubmitted between its own two sections, and recorded by the resubmission first, is
      accepted as first-seen and has an ungraded record: no resubmission, however much later, is ever
      told its grade. */
  lemma {:induction false} UngradedForGood(x: Setup, cp: Checkpoint, at: int, later: seq<Op>, loggedAt: int,
                                           headAt: int)
    requires Faithful(x)
    ensures Exec(x, Overlapped(cp, at)).accepted == [Direct(cp, FirstSeen, None)]
    ensures var w := Exec(x, Overlapped(cp, at) + later).w;
      Lookup(x, w.store, CheckpointBytes(x, BodyOf(cp))).Some? ==>
        RegisterCheckpoint(x, w, cp, loggedAt, headAt).1.Ok?
        && RegisterCheckpoint(x, w, cp, loggedAt, headAt).1.value.continuityGrade == None
  {
    hide Lookup, RegisterCheckpoint, CheckpointBytes;
    OverlappedRecord(x, cp, at);
    ReceiptGuarantees.RunGrows(x, Overlapped(cp, at), later);
    var w := Exec(x, Overlapped(cp, at) + later).w;
    hide Exec, Overlapped;
    if Lookup(x, w.store, CheckpointBytes(x, BodyOf(cp))).Some? {
      HitIsToldRecord(x, w, cp, loggedAt, headAt);
    }
  }

  lemma {:induction false} OverlappedRecord(x: Setup, cp: Checkpoint, at: int)
    requires Faithful(x)
    ensures var r := Exec(x, Overlapped(cp, at));
      && r.accepted == [Direct(cp, FirstSeen, None)] && (cp.logId, cp.size) in r.w.store.records
      && r.w.store.records[(cp.logId, cp.size)].continuityGrade == None
  {
    var op := SubmitCheckpoint(cp, at, at);
    var r1 := Step(x, START, op);
    FirstRegistered(x, cp, at);
    HitRegistered(x, r1, cp, at);
    ExecTwo(x, [], op, op);
    ExecTwo(x, [op, op], FinishCheckpoint(1), FinishCheckpoint(0));
    assert [] + [op, op] == [op, op] && [op, op] + [FinishCheckpoint(1), FinishCheckpoint(0)] == Overlapped(cp, at);
    hide Exec, Submitted, KeyOf, CheckpointBytes;
  }

  /** Two checkpoints for one position, each with adjacent sections: the second is accepted as merely
      registered and told the first one's first-seen. */
  lemma {:induction false} OtherGradeTold(x: Setup, cp: Checkpoint, other: Checkpoint, at: int)
    requires Faithful(x) && x.policy != Enforce && other.logId == cp.logId && other.size == cp.size
    requires ProofOf(other) == None && KeyOf(x, other) != KeyOf(x, cp)
    requires LegacyHash(x, CheckpointBytes(x, BodyOf(other))) != KeyOf(x, cp)
    ensures var r := Exec(x, Adjacent([SubmitCheckpoint(cp, at, at), SubmitCheckpoint(other, at, at)]));
      && (exists before :: r.accepted == [Direct(cp, FirstSeen, None), Direct(other, Registered, before)])
      && RegisterCheckpoint(x, r.w, other, at, at).1.Ok?
      && RegisterCheckpoint(x, r.w, other, at, at).1.value.continuityGrade == Some(FirstSeen)
  {
    hide Step, Paired, Exec, KeyOf, CheckpointBytes, RegisterCheckpoint, LegacyHash, Lookup;
    var op1, op2 := SubmitCheckpoint(cp, at, at), SubmitCheckpoint(other, at, at);
    AdjacentOfTwo(x, op1, op2);
    FirstWhole(x, cp, at);
    var r1 := Paired(x, START, op1);
    NotHit(x, r1.w.store, other);
    SecondWhole(x, r1, other, at);
    var r2 := Paired(x, r1, op2);
    HitIsToldRecord(x, r2.w, other, at, at);
  }

  lemma FirstWhole(x: Setup, cp: Checkpoint, at: int)
    requires Faithful(x)
    ensures var r := Paired(x, START, SubmitCheckpoint(cp, at, at));
      && r.accepted == [Direct(cp, FirstSeen, None)] && r.pending == [] && cp.logId in r.w.store.tips
      && r.w.store.statements.Keys == {KeyOf(x, cp)}
      && (cp.logId, cp.size) in r.w.store.records
      && r.w.store.records[(cp.logId, cp.size)].continuityGrade == Some(FirstSeen)
  {
    hide Step, KeyOf;
    var r1 := Step(x, START, SubmitCheckpoint(cp, at, at));
    FirstRegistered(x, cp, at);
    FinishOutcome(x, r1);
    FinishKeepsTips(x, r1);
  }

  lemma SecondWhole(x: Setup, r: Run, other: Checkpoint, at: int)
    requires Faithful(x) && x.policy != Enforce && r.pending == [] && other.logId in r.w.store.tips
    requires ProofOf(other) == None && Lookup(x, r.w.store, CheckpointBytes(x, BodyOf(other))).None?
    requires (other.logId, other.size) in r.w.store.records
    ensures var r' := Paired(x, r, SubmitCheckpoint(other, at, at));
      && (exists before :: r'.accepted == r.accepted + [Direct(other, Registered, before)])
      && r'.w.store.records == r.w.store.records
      && Lookup(x, r'.w.store, CheckpointBytes(x, BodyOf(other))).Some?
  {
    hide Step, KeyOf, CheckpointBytes, Lookup;
    SecondRegistered(x, r, other, at);
    FinishOutcome(x, Step(x, r, SubmitCheckpoint(other, at, at)));
    IsHit(x, Paired(x, r, SubmitCheckpoint(other, at, at)).w.store, other);
  }

  lemma NotHit(x: Setup, s: Store, cp: Checkpoint)
    requires KeyOf(x, cp) !in s.statements && LegacyHash(x, CheckpointBytes(x, BodyOf(cp))) !in s.statements
    ensures Lookup(x, s, CheckpointBytes(x, BodyOf(cp))).None?
  {
  }

  lemma IsHit(x: Setup, s: Store, cp: Checkpoint)
    requires KeyOf(x, cp) in s.statements
    ensures Lookup(x, s, CheckpointBytes(x, BodyOf(cp))).Some?
  {
  }

  lemma FinishKeepsTips(x: Setup, r: Run)
    ensures Step(x, r, FinishCheckpoint(0)).w.store.tips == r.w.store.tips
  {
  }

  lemma AdjacentOfTwo(x: Setup, op1: Op, op2: Op)
    requires op1.SubmitCheckpoint? && op2.SubmitCheckpoint?
    ensures Exec(x, Adjacent([op1, op2])) == Paired(x, Paired(x, START, op1), op2)
  {
    hide Step;
    var finish := FinishCheckpoint(0);
    assert [op1, op2][..1] == [op1] && [op1][..0] == [] && Adjacent([]) == [];
    assert Adjacent([op1]) == [op1, finish];
    assert Adjacent([op1, op2]) == [op1, finish] + [op2, finish];
    assert [] + [op1, finish] == [op1, finish];
    ExecTwo(x, [], op1, finish);
    ExecTwo(x, [op1, finish], op2, finish);
  }

  lemma SecondRegistered(x: Setup, r: Run, other: Checkpoint, at: int)
    requires Faithful(x) && x.policy != Enforce && r.pending == [] && other.logId in r.w.store.tips
    requires ProofOf(other) == None && Lookup(x, r.w.store, CheckpointBytes(x, BodyOf(other))).None?
    ensures var r' := Step(x, r, SubmitCheckpoint(other, at, at));
      && (exists before :: r'.accepted == r.accepted + [Direct(other, Registered, before)])
      && |r'.pending| == 1 && r'.pending[0].cp == other
      && r'.w.store.records == r.w.store.records && KeyOf(x, other) in r'.w.store.statements
  {
    var q := FromCheckpoint(x, other, at, at);
    DigestDeclaresNothing(x, BodyOf(other));
    assert Fresh(x, r.w, q);
    FreshIssues(x, r, q);
    OnlyFreshChangesStore(x, r.w, q);
    AppendKeepsReadSurface(x, r.w, q);
    var r' := Step(x, r, SubmitCheckpoint(other, at, at));
    assert r'.accepted == r.accepted + [Direct(other, Registered, TipOfLog(r.w.store.tips, other.logId))];
    hide DeclaredCheckpoint, CheckpointBytes, AppendStatement;
  }
}
