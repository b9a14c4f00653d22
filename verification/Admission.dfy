// What a registration answers, case by case, in terms of the submitted bytes, the stored tip and the
// foreign functions alone. The gates and keys of WitnessState have to come out as said here.
module Admission {
  import opened Basics
  import opened Authority
  import opened Checkpoints
  import opened WitnessState
  import opened WitnessRuns

  // ---------------------------------------------------------------- refused before anything is looked up

  /** The payload of a statement claims to be a checkpoint. */
  predicate Claims(x: Setup, b: Bytes, c: PayloadClaim) {
    match x.decode(b)
    case Some(Envelope(_, _, Some(payload), _)) => c.MmrClaim? && x.peekPayload(payload) == c
    case _ => false
  }

  /** The claim is complete: text and root present, and 0 <= previous size < size. */
  predicate Complete(c: PayloadClaim) {
    && c.MmrClaim? && c.root.Some?
    && c.logId.Some? && c.logId.value != "" && c.keyId.Some? && c.keyId.value != ""
    && c.timestamp.Some? && c.timestamp.value != ""
    && c.size.Some? && c.prevSize.Some? && 0 <= c.prevSize.value < c.size.value
  }

  ghost predicate Malformed(x: Setup, b: Bytes) {
    exists c :: Claims(x, b, c) && !Complete(c)
  }

  /** More than 65536 bytes, or a claimed checkpoint that is not complete: refused with its own error and
      nothing changed, in every state; and nothing else is refused for these reasons. */
  lemma {:induction false} RefusedOutright(x: Setup, w: Witness, q: Submission)
    ensures var (w', res) := Register(x, w, q);
      && (|q.bytes| > 65536 <==> res == Err(StatementTooLarge))
      && (|q.bytes| <= 65536 && Malformed(x, q.bytes) <==> res.Err? && res.error.NotACheckpoint?)
      && (|q.bytes| > 65536 || Malformed(x, q.bytes) ==> w' == w)
  {
    hide Admit, Lookup, Reissue;
    MalformedIsErr(x, q.bytes);
    AdmitNeverOutright(x, w, q);
  }

  lemma MalformedIsErr(x: Setup, b: Bytes)
    ensures Malformed(x, b) <==> DeclaredCheckpoint(x, b).Err?
  {
    match x.decode(b)
    case Some(Envelope(_, _, Some(payload), _)) =>
      var c := x.peekPayload(payload);
      assert c.MmrClaim? ==> Claims(x, b, c);
    case _ =>
  }

  lemma AdmitNeverOutright(x: Setup, w: Witness, q: Submission)
    ensures forall m :: Admit(x, w, q, m).1.Err? ==>
      !Admit(x, w, q, m).1.error.StatementTooLarge? && !Admit(x, w, q, m).1.error.NotACheckpoint?
  {
    hide AppendStatement;
  }

  // ---------------------------------------------------------------- dedup

  /** One of the two hashes of a statement is a cache key: that of its bytes, or that of the Sig_structure
      of its header and payload. */
  predicate IsCached(x: Setup, s: Store, b: Bytes) {
    || x.keys.sha256(b) in s.statements
    || match x.decode(b)
       case Some(Envelope(header, _, Some(payload), _)) =>
         x.keys.sha256(x.sigStructure(header, payload)) in s.statements
       case _ => false
  }

  lemma CachedIsHit(x: Setup, s: Store, b: Bytes)
    ensures IsCached(x, s, b) <==> Lookup(x, s, b).Some?
  {
  }

  /** A cached statement is answered and changes nothing; any other one that is accepted is appended. */
  lemma {:induction false} DedupKeys(x: Setup, w: Witness, q: Submission)
    requires |q.bytes| <= 65536 && !Malformed(x, q.bytes)
    ensures var (w', res) := Register(x, w, q);
      if IsCached(x, w.store, q.bytes) then res.Ok? && w' == w
      else res.Ok? ==> |w'.store.log| == |w.store.log| + 1
  {
    MalformedIsErr(x, q.bytes);
    CachedIsHit(x, w.store, q.bytes);
    OnlyFreshChangesStore(x, w, q);
    HitOrFresh(x, w, q);
    if Fresh(x, w, q) {
      FreshGrows(x, w, q);
    }
    hide Register, Fresh, Committed, Lookup, IsCached, DeclaredCheckpoint;
  }

  lemma HitOrFresh(x: Setup, w: Witness, q: Submission)
    requires |q.bytes| <= 65536 && DeclaredCheckpoint(x, q.bytes).Ok?
    ensures Register(x, w, q).1.Ok? <==> Lookup(x, w.store, q.bytes).Some? || Fresh(x, w, q)
    ensures Lookup(x, w.store, q.bytes).Some? ==> !Fresh(x, w, q)
  {
    hide AppendStatement;
  }

  lemma FreshGrows(x: Setup, w: Witness, q: Submission)
    requires Fresh(x, w, q)
    ensures |Committed(x, w, q).log| == |w.store.log| + 1
  {
  }

  // ---------------------------------------------------------------- the gate of declared checkpoints

  /** A complete mmr-checkpoint statement: a resubmission is reported as such. A new one is the first of
      its log, or is refused under enforce, or starts where the tip ends; anything else is a rollback.
      Accepted, it is the tip. */
  lemma {:induction false} DeclaredOutcome(x: Setup, w: Witness, q: Submission, m: MmrCheckpoint)
    requires |q.bytes| <= 65536 && q.cp.None?
    requires Claims(x, q.bytes, MmrClaim(Some(m.logId), Some(m.keyId), Some(m.root), Some(m.size), Some(m.prevSize),
                                         Some(m.timestamp)))
    requires m.logId != "" && m.keyId != "" && m.timestamp != ""
    ensures var (w', res) := Register(x, w, q);
      var tips := w.store.tips;
      if IsCached(x, w.store, q.bytes) then res.Ok? && res.value.declared == Some((m, AlreadyRegistered))
      else if m.logId in tips && x.policy == Enforce then
        res == Err(ConsistencyProofRequired(tips[m.logId].size, tips[m.logId].root))
      else if m.logId in tips && m.prevSize != tips[m.logId].size then res == Err(Rollback)
      else
        && res.Ok? && w'.store.tips == tips[m.logId := Tip(m.size, m.root, m.keyId, m.timestamp)]
        && res.value.declared == Some((m, if m.logId in tips then StatusWitnessed else StatusFirstSeen))
  {
    ParsedCheckpointIsDeclared(MmrClaim(Some(m.logId), Some(m.keyId), Some(m.root), Some(m.size), Some(m.prevSize),
                                        Some(m.timestamp)), m);
    assert DeclaredCheckpoint(x, q.bytes) == Ok(Some(m));
    CachedIsHit(x, w.store, q.bytes);
    TipsAfterAppend(x, w.store, q);
    hide Lookup, IsCached, DeclaredCheckpoint, EntryHash, AppendStatement;
  }

  lemma TipsAfterAppend(x: Setup, s: Store, q: Submission)
    ensures forall header :: AppendStatement(x, s, q, header).tips == s.tips
    ensures forall header :: EntryHash(x, q.bytes) in AppendStatement(x, s, q, header).statements
  {
  }

  // ---------------------------------------------------------------- the gate of POST /checkpoints

  /** The digest of a checkpoint's signing body, as bytes. */
  function DigestOf(x: Setup, cp: Checkpoint): Bytes {
    x.digestBytes(x.bodyDigest(SigningBody(cp.version, cp.logId, cp.size, cp.root, cp.prevSize, cp.prevRoot,
                                           cp.keyId, cp.timestamp)))
  }

  /** A new checkpoint of POST /checkpoints. The first of its log is first-seen. A later one with a proof
      is witnessed exactly if it names the tip's size and root and the proof is verified from the tip to
      the checkpoint, in that order. Without a proof it is registered and moves nothing, unless it is a
      native one under enforce: the JSON form and countersigned-observed logs are exempt. */
  lemma {:induction false} DirectOutcome(x: Setup, w: Witness, cp: Checkpoint, loggedAt: int, headAt: int)
    requires Faithful(x) && !IsCached(x, w.store, DigestOf(x, cp))
    ensures var (w', res) := RegisterCheckpoint(x, w, cp, loggedAt, headAt);
      var tips, moved := w.store.tips, w.store.tips[cp.logId := Tip(cp.size, cp.root, cp.keyId, cp.timestamp)];
      if cp.logId !in tips then
        res.Ok? && res.value.continuityGrade == Some(FirstSeen) && w'.store.tips == moved
      else
        var tip := tips[cp.logId];
        match cp.wire
        case CoseWire(Some(proof)) =>
          if cp.prevSize == tip.size && cp.prevRoot == tip.root
             && x.verifyConsistency(tip.root, tip.size, cp.root, cp.size, proof) then
            res.Ok? && res.value.continuityGrade == Some(Witnessed) && w'.store.tips == moved
          else res == Err(ContinuityMismatch(tip.size, tip.root))
        case CoseWire(None) =>
          if x.policy == Enforce && cp.grade != Some("countersigned-observed") then
            res == Err(ConsistencyProofRequired(tip.size, tip.root))
          else res.Ok? && res.value.continuityGrade == Some(Registered) && w'.store.tips == tips
        case JsonWire => res.Ok? && res.value.continuityGrade == Some(Registered) && w'.store.tips == tips
  {
    DigestDeclaresNothing(x, BodyOf(cp));
    CachedIsHit(x, w.store, DigestOf(x, cp));
    TipsAfterAppend(x, w.store, FromCheckpoint(x, cp, loggedAt, headAt));
    hide Lookup, IsCached, DeclaredCheckpoint, EntryHash, AppendStatement, Faithful;
  }
}
