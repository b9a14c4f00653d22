// What pruning the receipt cache does to resubmissions. It drops the dedup key with the receipt, so
// a resubmission is new again: a plain statement gets a second leaf, a checkpoint meets its gate.
module AfterPruning {
  import opened Basics
  import opened Authority
  import opened Checkpoints
  import opened WitnessState
  import opened WitnessRuns
  import opened TipChain
  import opened ReceiptGuarantees
  import opened Admission

  /** The gates a new submission meets, and whether it passes them. */
  predicate PassesGates(x: Setup, w: Witness, q: Submission)
    requires DeclaredCheckpoint(x, q.bytes).Ok?
  {
    var (counts, status) := GateDeclared(x, w, DeclaredCheckpoint(x, q.bytes).value);
    status.Ok? && GateContinuity(x, w.store.tips, counts, q.cp).1.Ok?
  }

  /** Cached, and logged at or after the cutoff. */
  predicate SurvivesPrune(s: Store, k: Digest, cutoff: int) {
    && k in s.statements && s.statements[k].leafIndex < |s.log|
    && s.log[s.statements[k].leafIndex].loggedAt >= cutoff
  }

  lemma LookupAfterPrune(x: Setup, s: Store, b: Bytes, cutoff: int)
    requires forall k :: k in s.statements ==> s.statements[k].leafIndex < |s.log|
    ensures Lookup(x, Prune(s, cutoff), b).Some?
      <==> SurvivesPrune(s, EntryHash(x, b), cutoff) || SurvivesPrune(s, LegacyHash(x, b), cutoff)
  {
  }

  /** Resubmitting after a prune, in every reachable state and for every submission: the cached answer
      if one of its two keys was logged at or after the cutoff. Otherwise its gates decide: it is
      refused, or it gets a new leaf beside the pruned one. */
  lemma {:induction false} PruneForgetsDedup(x: Setup, ops: seq<Op>, cutoff: int, q: Submission)
    requires |q.bytes| <= MAX_STATEMENT_BYTES && DeclaredCheckpoint(x, q.bytes).Ok?
    ensures var s, w, key := Exec(x, ops).w.store, Exec(x, ops + [PruneOlder(cutoff)]).w, EntryHash(x, q.bytes);
      var (w', res) := Register(x, w, q);
      if SurvivesPrune(s, key, cutoff) || SurvivesPrune(s, LegacyHash(x, q.bytes), cutoff) then
        res.Ok? && w' == w
      else if PassesGates(x, w, q) then
        && res.Ok? && |w'.store.log| == |s.log| + 1 && LeafOf(w'.store.log, |s.log|, key)
        && (key in s.statements ==>
          s.statements[key].leafIndex < |s.log| && LeafOf(w'.store.log, s.statements[key].leafIndex, key))
      else res.Err? && w'.store == w.store
  {
    var r := Exec(x, ops);
    var r' := Exec(x, ops + [PruneOlder(cutoff)]);
    ExecKeepsOnce(x, ops);
    ExecOne(x, ops, PruneOlder(cutoff));
    LookupAfterPrune(x, r.w.store, q.bytes, cutoff);
    OnlyFreshChangesStore(x, r'.w, q);
    FreshIffPasses(x, r'.w, q);
    if Fresh(x, r'.w, q) {
      FreshIssues(x, r', q);
    } else {
      RefusedUnlessHit(x, r'.w, q);
    }
    hide Exec, Register, Fresh, Committed, Lookup, DeclaredCheckpoint, EntryHash, LegacyHash, PassesGates;
  }

  lemma FreshIffPasses(x: Setup, w: Witness, q: Submission)
    requires |q.bytes| <= MAX_STATEMENT_BYTES && DeclaredCheckpoint(x, q.bytes).Ok?
    ensures Fresh(x, w, q) <==> Lookup(x, w.store, q.bytes).None? && PassesGates(x, w, q)
  {
  }

  lemma RefusedUnlessHit(x: Setup, w: Witness, q: Submission)
    requires |q.bytes| <= MAX_STATEMENT_BYTES && DeclaredCheckpoint(x, q.bytes).Ok? && !Fresh(x, w, q)
    ensures Register(x, w, q).1.Ok? <==> Lookup(x, w.store, q.bytes).Some?
  {
    hide AppendStatement;
  }

  /** Such a second leaf is reached by three operations, for every plain statement. */
  lemma {:induction false} SecondLeaf(x: Setup, b: Bytes, at: int)
    requires |b| <= MAX_STATEMENT_BYTES && DeclaredCheckpoint(x, b) == Ok(None)
    ensures var log := Exec(x, [Submit(b, at, at), PruneOlder(at + 1), Submit(b, at, at)]).w.store.log;
      |log| == 2 && LeafOf(log, 0, EntryHash(x, b)) && LeafOf(log, 1, EntryHash(x, b))
  {
    var op, q := Submit(b, at, at), Submission(b, None, None, at, at);
    assert [] + [op] == [op] && [op] + [PruneOlder(at + 1)] == [op, PruneOlder(at + 1)];
    assert [op, PruneOlder(at + 1)] + [op] == [op, PruneOlder(at + 1), op];
    ExecOne(x, [], op);
    ExecOne(x, [op, PruneOlder(at + 1)], op);
    OnlyOneLogged(x, q);
    PruneForgetsDedup(x, [op], at + 1, q);
    hide Exec, Register, DeclaredCheckpoint, EntryHash, LegacyHash, PassesGates;
  }

  lemma OnlyOneLogged(x: Setup, q: Submission)
    requires |q.bytes| <= MAX_STATEMENT_BYTES && DeclaredCheckpoint(x, q.bytes) == Ok(None) && q.cp.None?
    ensures var s, key := Submitted(x, START, q).w.store, EntryHash(x, q.bytes);
      && |s.log| == 1 && s.log[0].loggedAt == q.loggedAt && s.statements.Keys == {key}
      && s.statements[key].leafIndex == 0
      && forall w :: PassesGates(x, w, q)
  {
    assert Fresh(x, EMPTY_WITNESS, q);
    OnlyFreshChangesStore(x, EMPTY_WITNESS, q);
    FreshIssues(x, START, q);
    FreshLeaf(x, EMPTY_WITNESS, q);
  }

  /** A declared checkpoint that was accepted and has left the cache is refused from then on, under
      every policy: the tip it would have to extend is not behind it. */
  lemma {:induction false} PrunedDeclaredRefused(x: Setup, ops: seq<Op>, i: nat, q: Submission)
    requires Faithful(x) && i < |Exec(x, ops).accepted| && Exec(x, ops).accepted[i].Declared?
    requires |q.bytes| <= MAX_STATEMENT_BYTES && Lookup(x, Exec(x, ops).w.store, q.bytes).None?
    requires DeclaredCheckpoint(x, q.bytes) == Ok(Some(Exec(x, ops).accepted[i].m))
    ensures var res := Register(x, Exec(x, ops).w, q).1;
      res.Err? && if x.policy == Enforce then res.error.ConsistencyProofRequired? else res.error == Rollback
  {
    TipsFormAChain(x, ops);
    TipNotBehind(x, Exec(x, ops), i);
    hide Exec, Lookup, DeclaredCheckpoint, AppendStatement, IsChain, LastTip;
  }

  /** A checkpoint of POST /checkpoints for a position at or below one that moved the tip, and not in
      the cache: with a proof it is refused; without one it is refused if it is native and the policy
      is enforce, and otherwise gets a leaf of its own, is graded registered and moves no tip. */
  lemma {:induction false} PrunedCheckpointOutcome(x: Setup, ops: seq<Op>, i: nat, cp: Checkpoint, loggedAt: int,
                                                   headAt: int)
    requires Faithful(x) && i < |Exec(x, ops).accepted| && Moves(Exec(x, ops).accepted[i])
    requires LogOf(Exec(x, ops).accepted[i]) == cp.logId && cp.size <= SizeOf(Exec(x, ops).accepted[i])
    requires Lookup(x, Exec(x, ops).w.store, CheckpointBytes(x, BodyOf(cp))).None?
    ensures var w := Exec(x, ops).w; var (w', res) := RegisterCheckpoint(x, w, cp, loggedAt, headAt);
      if ProofOf(cp).Some? then res.Err? && res.error.ContinuityMismatch?
      else if IsNative(cp) && x.policy == Enforce then res.Err? && res.error.ConsistencyProofRequired?
      else
        && res.Ok? && res.value.continuityGrade == Some(Registered)
        && w'.store.tips == w.store.tips && |w'.store.log| == |w.store.log| + 1
  {
    hide Exec, Lookup, IsChain, LastTip, RegisterCheckpoint, IsCached;
    TipsFormAChain(x, ops);
    TipNotBehind(x, Exec(x, ops), i);
    var w := Exec(x, ops).w;
    CachedIsHit(x, w.store, CheckpointBytes(x, BodyOf(cp)));
    DirectOutcome(x, w, cp, loggedAt, headAt);
    NewCheckpointGrows(x, w, cp, loggedAt, headAt);
  }

  lemma NewCheckpointGrows(x: Setup, w: Witness, cp: Checkpoint, loggedAt: int, headAt: int)
    requires Faithful(x) && Lookup(x, w.store, CheckpointBytes(x, BodyOf(cp))).None?
    ensures var (w', res) := RegisterCheckpoint(x, w, cp, loggedAt, headAt);
      res.Ok? ==> |w'.store.log| == |w.store.log| + 1
  {
    hide Lookup, Register, IsCached;
    DigestDeclaresNothing(x, BodyOf(cp));
    MalformedIsErr(x, CheckpointBytes(x, BodyOf(cp)));
    CachedIsHit(x, w.store, CheckpointBytes(x, BodyOf(cp)));
    DedupKeys(x, w, FromCheckpoint(x, cp, loggedAt, headAt));
  }
}
