// How the three consistency-proof policies relate, for every state and every submission.
module PolicyModes {
  import opened Basics
  import opened Authority
  import opened Checkpoints
  import opened WitnessState

  /** warn decides exactly as off does; only the counter differs. */
  lemma {:induction false} WarnDecidesAsOff(x: Setup, w: Witness, q: Submission)
    ensures var off := Register(x.(policy := Off), w, q);
      var warn := Register(x.(policy := Warn), w, q);
      off.1 == warn.1 && off.0.store == warn.0.store && off.0.wouldRefuse == w.wouldRefuse
  {
    SamePreliminaries(x, Off, Warn, w, q);
    var m := DeclaredCheckpoint(x, q.bytes);
    if m.Ok? {
      GatesAgree(x, w, m.value, q.cp);
    }
    hide AppendStatement, Lookup, DeclaredCheckpoint, Preimage, EntryHash, Reissue, MoveTips,
      GateDeclared, GateContinuity;
  }

  lemma GatesAgree(x: Setup, w: Witness, m: Option<MmrCheckpoint>, cp: Option<Checkpoint>)
    ensures var off, warn := x.(policy := Off), x.(policy := Warn);
      && GateDeclared(off, w, m).0 == w.wouldRefuse && GateDeclared(off, w, m).1 == GateDeclared(warn, w, m).1
      && GateContinuity(off, w.store.tips, w.wouldRefuse, cp).0 == w.wouldRefuse
      && GateContinuity(off, w.store.tips, w.wouldRefuse, cp).1
        == GateContinuity(warn, w.store.tips, GateDeclared(warn, w, m).0, cp).1
  {
  }

  lemma GatesCount(x: Setup, w: Witness, m: Option<MmrCheckpoint>, cp: Option<Checkpoint>)
    ensures var warn, enforce := x.(policy := Warn), x.(policy := Enforce);
      var declared, strict := GateDeclared(warn, w, m), GateDeclared(enforce, w, m);
      var direct := GateContinuity(warn, w.store.tips, declared.0, cp);
      var strictDirect := GateContinuity(enforce, w.store.tips, w.wouldRefuse, cp);
      && strict.0 == strictDirect.0 == w.wouldRefuse
      && (strict.1.Err? ==> strict.1.error.ConsistencyProofRequired?)
      && (strict.1.Ok? ==> declared.1.Ok?)
      && ((if declared.1.Err? then declared.0 else direct.0) != w.wouldRefuse
        <==> strict.1.Err? || (strictDirect.1.Err? && strictDirect.1.error.ConsistencyProofRequired?))
  {
  }

  /** warn counts a submission exactly when enforce would refuse it for lack of a proof. */
  lemma {:induction false} WarnCountsWhatEnforceRefuses(x: Setup, w: Witness, q: Submission)
    ensures var warn := Register(x.(policy := Warn), w, q);
      var enforce := Register(x.(policy := Enforce), w, q);
      warn.0.wouldRefuse != w.wouldRefuse <==> enforce.1.Err? && enforce.1.error.ConsistencyProofRequired?
  {
    SamePreliminaries(x, Warn, Enforce, w, q);
    var m := DeclaredCheckpoint(x, q.bytes);
    if m.Ok? {
      GatesCount(x, w, m.value, q.cp);
    }
    hide AppendStatement, Lookup, DeclaredCheckpoint, Preimage, EntryHash, Reissue, MoveTips,
      GateDeclared, GateContinuity;
  }

  lemma SamePreliminaries(x: Setup, p: Policy, p': Policy, w: Witness, q: Submission)
    ensures var y, z, b := x.(policy := p), x.(policy := p'), q.bytes;
      && (forall header :: AppendStatement(y, w.store, q, header) == AppendStatement(z, w.store, q, header))
      && DeclaredCheckpoint(y, b) == DeclaredCheckpoint(z, b) && Lookup(y, w.store, b) == Lookup(z, w.store, b)
      && Preimage(y, b) == Preimage(z, b) && EntryHash(y, b) == EntryHash(z, b)
  {
  }
}
