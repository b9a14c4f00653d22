// The checkpoint tips of every log form a chain, over any run of both submission surfaces.
module TipChain {
  import opened Basics
  import opened Authority
  import opened Checkpoints
  import opened WitnessState
  import opened WitnessRuns

  // ---------------------------------------------------------------- the gates close behind a tip

  /** Once a declared checkpoint is admitted and its log's tip is moved to it, the same gate admits
      exactly what continues it, without enforce. A rival continuation of the old tip, admissible
      until then, is refused as a rollback. */
  lemma {:induction false} OneDeclaredSuccessor(x: Setup, w: Witness, m: MmrCheckpoint, counts: Counts,
                                                rival: MmrCheckpoint)
    requires CheckDeclared(x, w, m).1.Ok? && rival.logId == m.logId
    ensures var after := Witness(w.store.(tips := w.store.tips[m.logId := TipOfDeclared(m)]), counts);
      && (CheckDeclared(x, after, rival).1.Ok? <==> x.policy != Enforce && rival.prevSize == m.size)
      && (CheckDeclared(x, w, rival).1 == Ok(StatusWitnessed) ==> CheckDeclared(x, after, rival).1 == Err(Rollback))
      && CheckDeclared(x, after, m).1.Err?
  {
  }

  /** The same for POST /checkpoints: past the first checkpoint, only what names the new tip's size and
      root and proves to extend it is witnessed; of two proven continuations of one tip whichever
      comes second is refused, and told the new tip. */
  lemma {:induction false} OneWitnessedSuccessor(x: Setup, tips: Tips, counts: Counts, cp: Checkpoint, counts': Counts,
                                                 rival: Checkpoint)
    requires CheckContinuity(x, tips, counts, cp).1 in {Ok(FirstSeen), Ok(Witnessed)} && rival.logId == cp.logId
    ensures var after := tips[cp.logId := TipOf(cp)];
      && (CheckContinuity(x, after, counts', rival).1 == Ok(Witnessed) <==>
        && ProofOf(rival).Some? && rival.prevSize == cp.size && rival.prevRoot == cp.root
        && x.verifyConsistency(cp.root, cp.size, rival.root, rival.size, ProofOf(rival).value))
      && CheckContinuity(x, after, counts', rival).1 != Ok(FirstSeen)
      && (CheckContinuity(x, tips, counts, rival).1 == Ok(Witnessed) ==>
        CheckContinuity(x, after, counts', rival).1 == Err(ContinuityMismatch(cp.size, cp.root)))
  {
  }

  // ---------------------------------------------------------------- chains of acceptances

  function LogOf(a: Acceptance): string {
    match a case Declared(m, _) => m.logId case Direct(cp, _, _) => cp.logId
  }

  function SizeOf(a: Acceptance): int {
    match a case Declared(m, _) => m.size case Direct(cp, _, _) => cp.size
  }

  function NewTip(a: Acceptance): Tip {
    match a case Declared(m, _) => TipOfDeclared(m) case Direct(cp, _, _) => TipOf(cp)
  }

  /** A bare registration is accepted without moving the tip. */
  predicate Moves(a: Acceptance) {
    a.Declared? || a.grade != Registered
  }

  /** The last tip a log's acceptances moved to. */
  function LastTip(accepted: seq<Acceptance>, logId: string): Option<Tip> {
    if accepted == [] then None
    else
      var a := accepted[|accepted| - 1];
      if LogOf(a) == logId && Moves(a) then Some(NewTip(a)) else LastTip(accepted[..|accepted| - 1], logId)
  }

  /** What an acceptance had to show against the tip of its log. */
  predicate Links(x: Setup, a: Acceptance) {
    match a
    case Declared(m, before) =>
      before.Some? ==> m.prevSize == before.value.size && m.size > before.value.size && x.policy != Enforce
    case Direct(cp, grade, before) =>
      match grade
      case FirstSeen => before.None?
      case Witnessed =>
        && before.Some? && cp.prevSize == before.value.size && cp.prevRoot == before.value.root
        && ProofOf(cp).Some?
        && x.verifyConsistency(before.value.root, before.value.size, cp.root, cp.size, ProofOf(cp).value)
      case Registered => before.Some? && ProofOf(cp).None? && (x.policy == Enforce ==> !IsNative(cp))
  }

  ghost predicate IsChain(x: Setup, accepted: seq<Acceptance>) {
    forall i :: 0 <= i < |accepted| ==>
      accepted[i].before == LastTip(accepted[..i], LogOf(accepted[i])) && Links(x, accepted[i])
  }

  ghost predicate TipInv(x: Setup, r: Run) {
    && IsChain(x, r.accepted)
    && forall logId :: TipOfLog(r.w.store.tips, logId) == LastTip(r.accepted, logId)
  }

  lemma {:induction false} ChainExtends(x: Setup, accepted: seq<Acceptance>, a: Acceptance)
    requires IsChain(x, accepted) && a.before == LastTip(accepted, LogOf(a)) && Links(x, a)
    ensures IsChain(x, accepted + [a])
    ensures forall logId ::
      LastTip(accepted + [a], logId)
        == if LogOf(a) == logId && Moves(a) then Some(NewTip(a)) else LastTip(accepted, logId)
  {
    var longer := accepted + [a];
    assert longer[..|accepted|] == accepted;
    forall i | 0 <= i < |longer|
      ensures longer[i].before == LastTip(longer[..i], LogOf(longer[i])) && Links(x, longer[i])
    {
      if i < |accepted| {
        assert longer[..i] == accepted[..i] && longer[i] == accepted[i];
      }
    }
  }

  predicate AcceptedNext(x: Setup, r: Run, r': Run, a: Acceptance) {
    var tips := r.w.store.tips;
    && r'.accepted == r.accepted + [a] && Links(x, a) && a.before == TipOfLog(tips, LogOf(a))
    && r'.w.store.tips == if Moves(a) then tips[LogOf(a) := NewTip(a)] else tips
  }

  predicate Concerns(a: Acceptance, cp: Option<Checkpoint>) {
    if cp.None? then a.Declared? else a.Direct? && a.cp == cp.value
  }

  /** A fresh submission is at most one acceptance, and its tip is the only one that moves. */
  lemma FreshAcceptance(x: Setup, r: Run, q: Submission)
    requires Fresh(x, r.w, q) && (q.cp.Some? ==> DeclaredCheckpoint(x, q.bytes) == Ok(None))
    ensures var r' := Submitted(x, r, q);
      var tips, tips' := r.w.store.tips, r'.w.store.tips;
      (q.cp.None? && r'.accepted == r.accepted && tips' == tips) ||
      (exists a :: AcceptedNext(x, r, r', a) && Concerns(a, q.cp))
  {
    FreshIssues(x, r, q);
    hide AppendStatement, Lookup;
    var r' := Submitted(x, r, q);
    var tips, m := r.w.store.tips, DeclaredCheckpoint(x, q.bytes).value;
    if m.Some? {
      var a := Declared(m.value, TipOfLog(tips, m.value.logId));
      assert AcceptedNext(x, r, r', a) && Concerns(a, q.cp);
    } else if q.cp.Some? {
      var g := GateContinuity(x, tips, r.w.wouldRefuse, q.cp).1.value.value;
      var a := Direct(q.cp.value, g, TipOfLog(tips, q.cp.value.logId));
      assert AcceptedNext(x, r, r', a) && Concerns(a, q.cp);
    }
  }

  lemma {:induction false} SubmittedKeepsTips(x: Setup, r: Run, q: Submission)
    requires TipInv(x, r) && (q.cp.Some? ==> DeclaredCheckpoint(x, q.bytes) == Ok(None))
    ensures TipInv(x, Submitted(x, r, q))
  {
    var r' := Submitted(x, r, q);
    if Fresh(x, r.w, q) {
      FreshAcceptance(x, r, q);
      hide Submitted, AcceptedNext, Fresh;
      if a :| AcceptedNext(x, r, r', a) {
        AcceptanceKeepsTips(x, r, r', a);
      }
    } else {
      StaleSubmission(x, r, q);
    }
  }

  lemma {:induction false} AcceptanceKeepsTips(x: Setup, r: Run, r': Run, a: Acceptance)
    requires TipInv(x, r) && AcceptedNext(x, r, r', a)
    ensures TipInv(x, r')
  {
    hide Links, LastTip;
    ChainExtends(x, r.accepted, a);
  }

  lemma StaleSubmission(x: Setup, r: Run, q: Submission)
    requires !Fresh(x, r.w, q)
    ensures var r' := Submitted(x, r, q);
      r'.w.store == r.w.store && r'.accepted == r.accepted
  {
    OnlyFreshChangesStore(x, r.w, q);
    hide Register, Fresh;
  }

  lemma {:induction false} StepKeepsTips(x: Setup, r: Run, op: Op)
    requires Faithful(x) && TipInv(x, r)
    ensures TipInv(x, Step(x, r, op))
  {
    hide LastTip, HashChain.RootAt;
    match op
    case Submit(_, _, _) => SubmittedKeepsTips(x, r, SubmissionOf(x, op));
    case SubmitCheckpoint(_, _, _) =>
      DigestDeclaresNothing(x, BodyOf(op.cp));
      SubmittedKeepsTips(x, r, SubmissionOf(x, op));
    case _ =>
  }

  /** In every run, under every policy: each acceptance was checked against the then-last tip of its
      log and passed what Links asks, and the stored tip of a log is its last moving acceptance. */
  lemma {:induction false} TipsFormAChain(x: Setup, ops: seq<Op>)
    requires Faithful(x)
    ensures IsChain(x, Exec(x, ops).accepted)
    ensures forall logId :: TipOfLog(Exec(x, ops).w.store.tips, logId) == LastTip(Exec(x, ops).accepted, logId)
  {
    if ops != [] {
      TipsFormAChain(x, ops[..|ops| - 1]);
      StepKeepsTips(x, Exec(x, ops[..|ops| - 1]), ops[|ops| - 1]);
    }
  }

  /** The index of the acceptance the last tip comes from. */
  lemma {:induction false} LastMover(accepted: seq<Acceptance>, logId: string) returns (j: nat)
    requires LastTip(accepted, logId).Some?
    ensures j < |accepted| && LogOf(accepted[j]) == logId && Moves(accepted[j])
    ensures LastTip(accepted, logId) == Some(NewTip(accepted[j]))
    ensures forall i :: j < i < |accepted| ==> LogOf(accepted[i]) != logId || !Moves(accepted[i])
  {
    var n := |accepted| - 1;
    if LogOf(accepted[n]) == logId && Moves(accepted[n]) {
      j := n;
    } else {
      j := LastMover(accepted[..n], logId);
    }
  }

  lemma {:induction false} MovedOnce(accepted: seq<Acceptance>, i: nat)
    requires i < |accepted| && Moves(accepted[i])
    ensures LastTip(accepted, LogOf(accepted[i])).Some?
  {
    var n := |accepted| - 1;
    if i < n {
      MovedOnce(accepted[..n], i);
    }
  }

  /** The tip that a moving acceptance leaves, field by field. */
  predicate IsTipOf(t: Tip, a: Acceptance) {
    match a
    case Declared(m, _) => t.size == m.size && t.root == m.root && t.keyId == m.keyId && t.timestamp == m.timestamp
    case Direct(cp, _, _) =>
      t.size == cp.size && t.root == cp.root && t.keyId == cp.keyId && t.timestamp == cp.timestamp
  }

  /** The j-th acceptance is the last of its log that was not a bare registration. */
  predicate IsLastMove(accepted: seq<Acceptance>, j: nat, logId: string) {
    && j < |accepted| && LogOf(accepted[j]) == logId && Moves(accepted[j])
    && forall i :: j < i < |accepted| ==> LogOf(accepted[i]) != logId || !Moves(accepted[i])
  }

  /** In every run a log has a stored tip exactly if one of its acceptances moved it, and the tip is that
      of the last one. */
  lemma {:induction false} StoredTipIsLastMove(x: Setup, ops: seq<Op>, logId: string)
    requires Faithful(x)
    ensures var tips, accepted := Exec(x, ops).w.store.tips, Exec(x, ops).accepted;
      && (logId in tips ==> exists j: nat :: IsLastMove(accepted, j, logId) && IsTipOf(tips[logId], accepted[j]))
      && (forall i :: 0 <= i < |accepted| && LogOf(accepted[i]) == logId && Moves(accepted[i]) ==> logId in tips)
  {
    TipsFormAChain(x, ops);
    var tips, accepted := Exec(x, ops).w.store.tips, Exec(x, ops).accepted;
    hide Exec, LastTip, IsChain;
    assert TipOfLog(tips, logId) == LastTip(accepted, logId);
    if logId in tips {
      var j := LastMover(accepted, logId);
      assert IsLastMove(accepted, j, logId) && IsTipOf(tips[logId], accepted[j]);
    }
    forall i | 0 <= i < |accepted| && LogOf(accepted[i]) == logId && Moves(accepted[i]) ensures logId in tips {
      MovedOnce(accepted, i);
    }
  }

  /** A log's tip size strictly grows at every change, over the whole run. */
  lemma {:induction false} TipsStrictlyGrow(x: Setup, accepted: seq<Acceptance>, i: nat, j: nat)
    requires IsChain(x, accepted) && i < j < |accepted| && LogOf(accepted[i]) == LogOf(accepted[j])
    requires Moves(accepted[i]) && Moves(accepted[j])
    ensures SizeOf(accepted[i]) < SizeOf(accepted[j])
    decreases j
  {
    var logId := LogOf(accepted[j]);
    MovedOnce(accepted[..j], i);
    var l := LastMover(accepted[..j], logId);
    assert accepted[j].before == Some(NewTip(accepted[l])) && Links(x, accepted[j]);
    if i < l {
      TipsStrictlyGrow(x, accepted, i, l);
    }
  }

  /** The tip of a log is never behind an acceptance that moved it. */
  lemma {:induction false} TipNotBehind(x: Setup, r: Run, i: nat)
    requires TipInv(x, r) && i < |r.accepted| && Moves(r.accepted[i])
    ensures LogOf(r.accepted[i]) in r.w.store.tips
      && SizeOf(r.accepted[i]) <= r.w.store.tips[LogOf(r.accepted[i])].size
  {
    var logId := LogOf(r.accepted[i]);
    assert TipOfLog(r.w.store.tips, logId) == LastTip(r.accepted, logId);
    hide LastTip;
    MovedOnce(r.accepted, i);
    var j := LastMover(r.accepted, logId);
    if i < j {
      TipsStrictlyGrow(x, r.accepted, i, j);
    }
  }

  // ---------------------------------------------------------------- signed continuity assertions

  /** The acceptance a signed continuity assertion speaks of. */
  predicate Backs(a: Acceptance, c: Continuity) {
    && a.Direct? && a.grade == Witnessed
    && c.logId == a.cp.logId && c.size == a.cp.size && c.root == a.cp.root
    && c.prevSize == a.cp.prevSize && c.prevRoot == a.cp.prevRoot
  }

  predicate Asserts(i: Issued, a: Acceptance) {
    i.receipt.header.continuity.Some? && Backs(a, i.receipt.header.continuity.value)
  }

  ghost predicate ClaimsInv(accepted: seq<Acceptance>, issued: seq<Issued>) {
    && (forall i :: i in issued && i.receipt.header.continuity.Some? ==> exists a :: a in accepted && Asserts(i, a))
    && (forall a :: a in accepted && a.Direct? && a.grade == Witnessed ==> exists i :: i in issued && Asserts(i, a))
  }

  lemma {:induction false} SubmittedKeepsClaims(x: Setup, r: Run, q: Submission)
    requires q.cp.Some? ==> DeclaredCheckpoint(x, q.bytes) == Ok(None)
    requires ClaimsInv(r.accepted, r.issued)
    ensures ClaimsInv(Submitted(x, r, q).accepted, Submitted(x, r, q).issued)
  {
    var r' := Submitted(x, r, q);
    if Fresh(x, r.w, q) {
      FreshIssues(x, r, q);
      FreshAcceptance(x, r, q);
      var i := Issued(EntryHash(x, q.bytes), r'.w.store.statements[EntryHash(x, q.bytes)].receipt);
      if a :| AcceptedNext(x, r, r', a) && Concerns(a, q.cp) {
        FreshClaim(x, r, q, a);
        hide Submitted, AcceptedNext, Concerns;
        ClaimsExtend(r.accepted, [a], r.issued, i);
      } else {
        hide AcceptedNext, Concerns, Submitted;
        NoClaimWithoutCheckpoint(x, r, q);
        assert r'.accepted == r.accepted + [];
        ClaimsExtend(r.accepted, [], r.issued, i);
      }
    } else {
      StaleSubmission(x, r, q);
      OnlyFreshChangesStore(x, r.w, q);
    }
  }

  lemma ClaimsExtend(accepted: seq<Acceptance>, more: seq<Acceptance>, issued: seq<Issued>, i: Issued)
    requires ClaimsInv(accepted, issued) && |more| <= 1
    requires i.receipt.header.continuity.Some? <==> more != [] && more[0].Direct? && more[0].grade == Witnessed
    requires more != [] && i.receipt.header.continuity.Some? ==> Asserts(i, more[0])
    ensures ClaimsInv(accepted + more, issued + [i])
  {
    hide Asserts;
    assert i in issued + [i] && (more != [] ==> more[0] in accepted + more);
    assert forall a :: a in accepted ==> a in accepted + more;
    assert forall j :: j in issued ==> j in issued + [i];
  }

  /** A receipt carries an assertion exactly when its checkpoint was graded continuity-witnessed. */
  lemma FreshClaim(x: Setup, r: Run, q: Submission, a: Acceptance)
    requires Fresh(x, r.w, q) && (q.cp.Some? ==> DeclaredCheckpoint(x, q.bytes) == Ok(None))
    requires AcceptedNext(x, r, Submitted(x, r, q), a) && Concerns(a, q.cp)
    ensures var s, key := Submitted(x, r, q).w.store, EntryHash(x, q.bytes);
      && key in s.statements
      && var i := Issued(key, s.statements[key].receipt);
         && (i.receipt.header.continuity.Some? <==> a.Direct? && a.grade == Witnessed)
         && (i.receipt.header.continuity.Some? ==> Asserts(i, a))
  {
    hide HashChain.RootAt, Lookup;
  }

  lemma NoClaimWithoutCheckpoint(x: Setup, r: Run, q: Submission)
    requires Fresh(x, r.w, q) && q.cp.None?
    ensures var s, key := Committed(x, r.w, q), EntryHash(x, q.bytes);
      key in s.statements && s.statements[key].receipt.header.continuity == None
  {
    hide HashChain.RootAt, Lookup;
  }

  lemma {:induction false} StepKeepsClaims(x: Setup, r: Run, op: Op)
    requires Faithful(x) && ClaimsInv(r.accepted, r.issued)
    ensures ClaimsInv(Step(x, r, op).accepted, Step(x, r, op).issued)
  {
    hide ClaimsInv, HashChain.RootAt;
    match op
    case Submit(_, _, _) => SubmittedKeepsClaims(x, r, SubmissionOf(x, op));
    case SubmitCheckpoint(_, _, _) =>
      DigestDeclaresNothing(x, BodyOf(op.cp));
      SubmittedKeepsClaims(x, r, SubmissionOf(x, op));
    case _ =>
  }

  /** In every run, the receipts that assert continuity are exactly those of the checkpoints accepted
      as witnessed: by TipsFormAChain, those that named the tip of their log and proved to extend it. */
  lemma {:induction false} ContinuityClaimsAreTrue(x: Setup, ops: seq<Op>)
    requires Faithful(x)
    ensures ClaimsInv(Exec(x, ops).accepted, Exec(x, ops).issued)
  {
    if ops != [] {
      hide Step, ClaimsInv;
      ContinuityClaimsAreTrue(x, ops[..|ops| - 1]);
      StepKeepsClaims(x, Exec(x, ops[..|ops| - 1]), ops[|ops| - 1]);
    }
  }
}
