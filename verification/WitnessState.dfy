// The state of one witness process and what each operation does to it, as functions: the store of
// store.py, and AnchorerService of service.py on top of it. The classes in AnchoringService.dfy are
// proved to compute exactly these functions; the run-level results are about them.
module WitnessState {
  import opened Basics
  import opened MerkleTree
  import opened InclusionProof
  import opened Authority
  import opened HashChain
  import opened Checkpoints

  // ---------------------------------------------------------------- surroundings

  datatype Policy = Off | Warn | Enforce

  /** A decoded COSE_Sign1. */
  datatype Envelope = Envelope(protectedHeader: Bytes, unprotectedHeader: Bytes, payload: Option<Bytes>,
                               signature: Bytes)

  /** The service's configuration and the foreign functions it calls. */
  datatype Setup = Setup(
    keys: Keys,
    policy: Policy,
    decode: Bytes -> Option<Envelope>,
    sigStructure: (Bytes, Bytes) -> Bytes,
    peekPayload: Bytes -> PayloadClaim,
    digestBytes: Digest -> Bytes,
    bodyDigest: SigningBody -> Digest,
    verifyConsistency: (Digest, int, Digest, int, ExtensionProof) -> bool)

  /** The bare digest a checkpoint is registered as. */
  function CheckpointBytes(x: Setup, body: SigningBody): Bytes { x.digestBytes(x.bodyDigest(body)) }

  /** A submission with its clock readings: the statement bytes, the grade to sign, and the parsed
      checkpoint when it comes from POST /checkpoints. */
  datatype Submission = Submission(bytes: Bytes, grade: Option<string>, cp: Option<Checkpoint>, loggedAt: int,
                                   headAt: int)

  function FromCheckpoint(x: Setup, cp: Checkpoint, loggedAt: int, headAt: int): Submission {
    Submission(CheckpointBytes(x, BodyOf(cp)), cp.grade, Some(cp), loggedAt, headAt)
  }

  const MAX_STATEMENT_BYTES := 64 * 1024

  // ---------------------------------------------------------------- the store

  datatype Receipt = Receipt(treeSize: nat, leafIndex: nat, auditPath: seq<Digest>, header: ReceiptHeader,
                             signature: Signature)

  datatype Cached = Cached(receipt: Receipt, leafIndex: nat, treeSize: nat)

  datatype Tip = Tip(size: int, root: Digest, keyId: string, timestamp: string)

  datatype Scheme = SigStructure | Legacy

  datatype Grade = FirstSeen | Registered | Witnessed

  datatype Record = Record(
    root: Digest, prevSize: int, prevRoot: Digest, keyId: string, timestamp: string, grade: Option<string>,
    entryHash: Digest, scheme: Scheme, leafIndex: nat, treeSize: nat, receipt: Receipt, continuityGrade: Option<Grade>)

  datatype Evidence = Evidence(root: Digest, entryHash: Digest, timestamp: string)

  datatype Conflict = Conflict(size: int, first: Evidence, conflicting: Evidence)

  datatype Store = Store(
    log: seq<Entry>,
    statements: map<Digest, Cached>,
    tips: Tips,
    records: map<(string, int), Record>,
    conflicts: map<string, seq<Conflict>>,
    head: Option<TreeHead>,
    history: map<nat, TreeHead>)

  const EMPTY_STORE := Store([], map[], map[], map[], map[], None, map[])

  function EvidenceOf(r: Record): Evidence {
    Evidence(r.root, r.entryHash, r.timestamp)
  }

  function ConflictsOf(s: Store, logId: string): seq<Conflict> {
    if logId in s.conflicts then s.conflicts[logId] else []
  }

  /** put_checkpoint_record: first record wins; another root at the same position is flagged. */
  function PutRecord(s: Store, logId: string, size: int, r: Record): Store {
    if (logId, size) !in s.records then s.(records := s.records[(logId, size) := r])
    else
      var first := s.records[(logId, size)];
      if first.root == r.root then s
      else
        var event := Conflict(size, EvidenceOf(first), EvidenceOf(r));
        s.(conflicts := s.conflicts[logId := ConflictsOf(s, logId) + [event]])
  }

  function PutHead(s: Store, h: TreeHead): Store {
    s.(head := Swap(s.head, h), history := Retain(s.history, h))
  }

  /** A cached receipt whose entry was logged before the cutoff. */
  predicate Stale(s: Store, key: Digest, cutoff: int) {
    && key in s.statements && s.statements[key].leafIndex < |s.log|
    && s.log[s.statements[key].leafIndex].loggedAt < cutoff
  }

  /** prune_statements_older_than. */
  function Prune(s: Store, cutoff: int): Store {
    s.(statements := map k | k in s.statements && !Stale(s, k, cutoff) :: s.statements[k])
  }

  // ---------------------------------------------------------------- entry identity

  /** _entry_hash_preimage: the signature and the unprotected header are left out when they can be. */
  function Preimage(x: Setup, b: Bytes): (Bytes, Scheme) {
    match x.decode(b)
    case Some(Envelope(header, _, Some(payload), _)) => (x.sigStructure(header, payload), SigStructure)
    case _ => (b, Legacy)
  }

  function EntryHash(x: Setup, b: Bytes): Digest {
    x.keys.sha256(Preimage(x, b).0)
  }

  function LegacyHash(x: Setup, b: Bytes): Digest {
    x.keys.sha256(b)
  }

  /** The same signing act: equal protected header and payload. The signature and the unprotected
      header may differ (RFC 9052 section 4.4 covers neither of the latter two). */
  predicate SameSigningAct(x: Setup, b: Bytes, b': Bytes) {
    var e, e' := x.decode(b), x.decode(b');
    && e.Some? && e'.Some? && e.value.payload.Some?
    && e.value.protectedHeader == e'.value.protectedHeader && e.value.payload == e'.value.payload
  }

  /** The dedup lookup, with its second look under the legacy key. */
  function Lookup(x: Setup, s: Store, b: Bytes): Option<(Cached, Digest, Scheme)> {
    if EntryHash(x, b) in s.statements then Some((s.statements[EntryHash(x, b)], EntryHash(x, b), Preimage(x, b).1))
    else if LegacyHash(x, b) in s.statements then Some((s.statements[LegacyHash(x, b)], LegacyHash(x, b), Legacy))
    else None
  }

  /** The checkpoint a Signed Statement declares, if any. */
  function DeclaredCheckpoint(x: Setup, b: Bytes): Result<Option<MmrCheckpoint>, Malformed> {
    match x.decode(b)
    case Some(Envelope(_, _, Some(payload), _)) => ParsePayload(x.peekPayload(payload))
    case _ => Ok(None)
  }

  /** The shortest JSON text that declares a checkpoint: {"artifact_type":"mmr-checkpoint"}. */
  const SHORTEST_DECLARATION := 34

  predicate PayloadFits(x: Setup, b: Bytes) {
    match x.decode(b)
    case Some(Envelope(_, _, Some(payload), _)) => |payload| <= |b|
    case _ => true
  }

  /** What holds of the foreign functions: a checkpoint's digest has 32 bytes, a decoded payload lies
      inside the bytes it was decoded from, and a shorter one than SHORTEST_DECLARATION declares
      nothing. A digest may well decode as a COSE_Sign1. */
  ghost predicate Faithful(x: Setup) {
    && (forall body :: |CheckpointBytes(x, body)| == 32)
    && (forall b :: PayloadFits(x, b))
    && (forall payload :: |payload| < SHORTEST_DECLARATION ==> x.peekPayload(payload).OtherPayload?)
  }

  /** A checkpoint registered as its digest is never taken for a declared one as well, whatever the
      digest decodes as. */
  lemma {:induction false} DigestDeclaresNothing(x: Setup, body: SigningBody)
    requires Faithful(x)
    ensures |CheckpointBytes(x, body)| <= MAX_STATEMENT_BYTES
    ensures DeclaredCheckpoint(x, CheckpointBytes(x, body)) == Ok(None)
  {
    assert PayloadFits(x, CheckpointBytes(x, body));
  }

  // ---------------------------------------------------------------- the service

  type Tips = map<string, Tip>

  /** Per log, how often a missing proof has been let through. */
  type Counts = map<string, nat>

  datatype Witness = Witness(store: Store, wouldRefuse: Counts)

  const EMPTY_WITNESS := Witness(EMPTY_STORE, map[])

  datatype Refusal =
    | StatementTooLarge
    | NotACheckpoint(reason: Malformed)
    | Rollback
    | ContinuityMismatch(acceptedSize: int, acceptedRoot: Digest)
    | ConsistencyProofRequired(acceptedSize: int, acceptedRoot: Digest)

  /** What a gate leaves behind: the counters, and its verdict. */
  type Verdict<T> = (Counts, Result<T, Refusal>)

  datatype Status = StatusFirstSeen | StatusWitnessed | AlreadyRegistered

  datatype Registration = Registration(
    receipt: Receipt, entryHash: Digest, leafIndex: nat, treeSize: nat, scheme: Scheme,
    declared: Option<(MmrCheckpoint, Status)>, continuityGrade: Option<Grade>)

  function Bump(counts: Counts, logId: string): Counts {
    counts[logId := (if logId in counts then counts[logId] else 0) + 1]
  }

  /** _refuse_or_count. */
  function RefuseOrCount(x: Setup, counts: Counts, logId: string, tip: Tip): (Counts, Option<Refusal>) {
    match x.policy
    case Off => (counts, None)
    case Warn => (Bump(counts, logId), None)
    case Enforce => (counts, Some(ConsistencyProofRequired(tip.size, tip.root)))
  }

  /** _check_checkpoint_consistency, the gate of declared checkpoints. */
  function CheckDeclared(x: Setup, w: Witness, m: MmrCheckpoint): Verdict<Status> {
    if m.logId !in w.store.tips then (w.wouldRefuse, Ok(StatusFirstSeen))
    else
      var tip := w.store.tips[m.logId];
      var (counts, refused) := RefuseOrCount(x, w.wouldRefuse, m.logId, tip);
      if refused.Some? then (counts, Err(refused.value))
      else if m.prevSize != tip.size || m.size <= tip.size then (counts, Err(Rollback))
      else (counts, Ok(StatusWitnessed))
  }

  /** _check_checkpoint_continuity, the gate of POST /checkpoints. */
  function CheckContinuity(x: Setup, tips: Tips, counts: Counts, cp: Checkpoint): Verdict<Grade> {
    if cp.logId !in tips then (counts, Ok(FirstSeen))
    else
      var tip := tips[cp.logId];
      match ProofOf(cp)
      case None =>
        if !IsNative(cp) then (counts, Ok(Registered))
        else
          var (counts', refused) := RefuseOrCount(x, counts, cp.logId, tip);
          (counts', if refused.Some? then Err(refused.value) else Ok(Registered))
      case Some(proof) =>
        if cp.prevSize != tip.size || cp.prevRoot != tip.root
           || !x.verifyConsistency(tip.root, tip.size, cp.root, cp.size, proof) then
          (counts, Err(ContinuityMismatch(tip.size, tip.root)))
        else (counts, Ok(Witnessed))
  }

  /** int(timestamp()): microseconds to whole seconds, towards zero. */
  function Seconds(t: int): int {
    if t >= 0 then t / 1_000_000 else -(-t / 1_000_000)
  }

  /** The COSE receipt for the last entry of a log. */
  function IssueReceipt(a: Keys, log: seq<Entry>, header: ReceiptHeader): Receipt
    requires log != []
  {
    var leaves := Leaves(a, log);
    Receipt(|log|, |log| - 1, AuditPath(a.tree, |log| - 1, leaves), header,
            a.attest(ReceiptMessage(header, TreeRoot(a.tree, leaves))))
  }

  function Assertion(cp: Option<Checkpoint>, grade: Option<Grade>, loggedAt: int): Option<Continuity> {
    if cp.Some? && grade == Some(Witnessed) then
      Some(Continuity(cp.value.logId, cp.value.prevSize, cp.value.prevRoot, cp.value.size, cp.value.root, loggedAt))
    else None
  }

  /** _sign_and_persist_sth. */
  function SignAndPersist(a: Keys, s: Store, headAt: int): Store {
    PutHead(s, SignedHead(a, |s.log|, RootAt(a, s.log, |s.log|), headAt))
  }

  /** The signed header: the witness's own clock, the grade, and the assertion if it was earned. */
  function HeaderFor(q: Submission, continuity: Option<Grade>): ReceiptHeader {
    ReceiptHeader(Seconds(q.loggedAt), q.grade, Assertion(q.cp, continuity, q.loggedAt))
  }

  /** The append, the receipt, the cache entry and the new head of an accepted submission. */
  function AppendStatement(x: Setup, s: Store, q: Submission, header: ReceiptHeader): Store {
    var log := Appended(x.keys, s.log, ScittStatement, Preimage(x, q.bytes).0, q.loggedAt);
    var cached := Cached(IssueReceipt(x.keys, log, header), |s.log|, |log|);
    SignAndPersist(x.keys, s.(log := log, statements := s.statements[EntryHash(x, q.bytes) := cached]), q.headAt)
  }

  function TipOfDeclared(m: MmrCheckpoint): Tip { Tip(m.size, m.root, m.keyId, m.timestamp) }

  function TipOf(cp: Checkpoint): Tip { Tip(cp.size, cp.root, cp.keyId, cp.timestamp) }

  /** The tips after an accepted submission: a bare registration does not move them. */
  function MoveTips(tips: Tips, m: Option<MmrCheckpoint>, cp: Option<Checkpoint>, grade: Option<Grade>): Tips {
    var tips' := if m.Some? then tips[m.value.logId := TipOfDeclared(m.value)] else tips;
    if cp.Some? && (grade == Some(FirstSeen) || grade == Some(Witnessed)) then tips'[cp.value.logId := TipOf(cp.value)]
    else tips'
  }

  /** register_signed_statement_full. Refusals leave everything but the would-refuse counter alone. */
  function Register(x: Setup, w: Witness, q: Submission): (Witness, Result<Registration, Refusal>) {
    if |q.bytes| > MAX_STATEMENT_BYTES then (w, Err(StatementTooLarge))
    else match DeclaredCheckpoint(x, q.bytes)
      case Err(reason) => (w, Err(NotACheckpoint(reason)))
      case Ok(m) =>
        match Lookup(x, w.store, q.bytes)
        case Some((cached, key, scheme)) => (w, Ok(Reissue(w.store, cached, key, scheme, m, q.cp)))
        case None => Admit(x, w, q, m)
  }

  /** A resubmission: the cached receipt, and the grade on the record at the checkpoint's position. */
  function Reissue(s: Store, cached: Cached, key: Digest, scheme: Scheme, m: Option<MmrCheckpoint>,
                   cp: Option<Checkpoint>)
    : Registration
  {
    Registration(cached.receipt, key, cached.leafIndex, cached.treeSize, scheme,
                 if m.Some? then Some((m.value, AlreadyRegistered)) else None,
                 if cp.Some? && (cp.value.logId, cp.value.size) in s.records
                 then s.records[(cp.value.logId, cp.value.size)].continuityGrade else None)
  }

  function GateDeclared(x: Setup, w: Witness, m: Option<MmrCheckpoint>): Verdict<Option<Status>> {
    if m.None? then (w.wouldRefuse, Ok(None))
    else
      var (counts, r) := CheckDeclared(x, w, m.value);
      (counts, match r case Err(e) => Err(e) case Ok(status) => Ok(Some(status)))
  }

  function GateContinuity(x: Setup, tips: Tips, counts: Counts, cp: Option<Checkpoint>): Verdict<Option<Grade>> {
    if cp.None? then (counts, Ok(None))
    else
      var (counts', r) := CheckContinuity(x, tips, counts, cp.value);
      (counts', match r case Err(e) => Err(e) case Ok(g) => Ok(Some(g)))
  }

  /** A genuinely new submission: both gates, then the commit. */
  function Admit(x: Setup, w: Witness, q: Submission, m: Option<MmrCheckpoint>)
    : (Witness, Result<Registration, Refusal>)
  {
    var (counts1, status) := GateDeclared(x, w, m);
    if status.Err? then (w.(wouldRefuse := counts1), Err(status.error))
    else
      var (counts2, continuity) := GateContinuity(x, w.store.tips, counts1, q.cp);
      if continuity.Err? then (w.(wouldRefuse := counts2), Err(continuity.error))
      else
        var s := AppendStatement(x, w.store, q, HeaderFor(q, continuity.value));
        var key := EntryHash(x, q.bytes);
        var cached := s.statements[key];
        (Witness(s.(tips := MoveTips(s.tips, m, q.cp, continuity.value)), counts2),
         Ok(Registration(cached.receipt, key, cached.leafIndex, cached.treeSize, Preimage(x, q.bytes).1,
                         if m.Some? then Some((m.value, status.value.value)) else None, continuity.value)))
  }

  /** The first half of witness_checkpoint, under the lock. */
  function RegisterCheckpoint(x: Setup, w: Witness, cp: Checkpoint, loggedAt: int, headAt: int)
    : (Witness, Result<Registration, Refusal>)
  {
    Register(x, w, FromCheckpoint(x, cp, loggedAt, headAt))
  }

  function RecordOf(cp: Checkpoint, r: Registration): Record {
    Record(cp.root, cp.prevSize, cp.prevRoot, cp.keyId, cp.timestamp, cp.grade, r.entryHash, r.scheme, r.leafIndex,
           r.treeSize, r.receipt, r.continuityGrade)
  }

  /** Its second half, _record_checkpoint_read_surface, under the lock again. */
  function RecordCheckpoint(w: Witness, cp: Checkpoint, r: Registration): Witness {
    w.(store := PutRecord(w.store, cp.logId, cp.size, RecordOf(cp, r)))
  }

  /** anchor, as far as the log is concerned. */
  function Anchor(x: Setup, w: Witness, payload: Bytes, attestedAt: int): Witness {
    w.(store := w.store.(log := Appended(x.keys, w.store.log, RootEntry, payload, attestedAt)))
  }

  function RefreshHead(x: Setup, w: Witness, headAt: int): Witness {
    w.(store := SignAndPersist(x.keys, w.store, headAt))
  }

  /** get_sth: a stored head that covers the log is returned, otherwise a new one is signed. */
  function ReadHead(x: Setup, w: Witness, headAt: int): (Witness, TreeHead) {
    if w.store.head.Some? && w.store.head.value.treeSize >= |w.store.log| then (w, w.store.head.value)
    else
      var n := |w.store.log|;
      (RefreshHead(x, w, headAt), SignedHead(x.keys, n, RootAt(x.keys, w.store.log, n), headAt))
  }
}
