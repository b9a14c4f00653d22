// What log entries, receipts and tree heads commit to, in terms of the submitted bytes and the hash
// functions alone.
module Commitments {
  import opened Basics
  import opened MerkleTree
  import opened Authority
  import opened HashChain
  import opened Checkpoints
  import opened WitnessState
  import opened WitnessRuns
  import opened ReceiptGuarantees
  import Admission
  import ConsistencyProof

  // ---------------------------------------------------------------- the entry of a statement

  /** What is hashed into the log for a statement: the Sig_structure of its header and payload, or all of
      its bytes. */
  predicate IsInput(x: Setup, b: Bytes, scheme: Scheme, input: Bytes) {
    match scheme
    case Legacy => input == b
    case SigStructure =>
      match x.decode(b)
      case Some(Envelope(header, _, Some(payload), _)) => input == x.sigStructure(header, payload)
      case _ => false
  }

  function InputOf(x: Setup, b: Bytes, scheme: Scheme): (input: Bytes)
    ensures (exists other :: IsInput(x, b, scheme, other)) ==> IsInput(x, b, scheme, input)
  {
    if scheme == Legacy then b
    else
      match x.decode(b)
      case Some(Envelope(header, _, Some(payload), _)) => x.sigStructure(header, payload)
      case _ => []
  }

  /** An answer names a statement entry of the log whose payload hash is the hash of the statement's input
      under the answer's scheme. */
  ghost predicate Commits(x: Setup, log: seq<Entry>, b: Bytes, res: Registration) {
    && res.leafIndex < |log| && log[res.leafIndex].kind == ScittStatement
    && IsInput(x, b, res.scheme, InputOf(x, b, res.scheme))
    && log[res.leafIndex].payloadHash == x.keys.sha256(InputOf(x, b, res.scheme)) == res.entryHash
  }

  /** In every reachable state, whoever registered it and however often: an accepted statement is answered
      with an entry that commits to its own header and payload, or to all of its bytes. */
  lemma {:induction false} AnswersCommit(x: Setup, ops: seq<Op>, q: Submission)
    requires Register(x, Exec(x, ops).w, q).1.Ok?
    ensures var (w', res) := Register(x, Exec(x, ops).w, q);
      Commits(x, w'.store.log, q.bytes, res.value)
  {
    var r := Exec(x, ops);
    ExecKeepsOnce(x, ops);
    OnlyFreshChangesStore(x, r.w, q);
    if Fresh(x, r.w, q) {
      FreshIssues(x, r, q);
      FreshLeaf(x, r.w, q);
      FreshResult(x, r.w, q);
      FreshScheme(x, r.w, q);
      hide Exec, Register, Committed, Fresh, Submitted;
    } else {
      HitAnswer(x, r.w, q);
      hide Exec, Register, Committed, Fresh;
    }
  }

  lemma FreshScheme(x: Setup, w: Witness, q: Submission)
    requires Fresh(x, w, q)
    ensures Register(x, w, q).1.Ok? && Register(x, w, q).1.value.scheme == Preimage(x, q.bytes).1
  {
    hide AppendStatement;
  }

  lemma HitAnswer(x: Setup, w: Witness, q: Submission)
    requires Register(x, w, q).1.Ok? && !Fresh(x, w, q)
    ensures var (w', res) := Register(x, w, q);
      && w' == w && res.value.entryHash in w.store.statements
      && res.value.leafIndex == w.store.statements[res.value.entryHash].leafIndex
      && IsInput(x, q.bytes, res.value.scheme, InputOf(x, q.bytes, res.value.scheme))
      && res.value.entryHash == x.keys.sha256(InputOf(x, q.bytes, res.value.scheme))
  {
    hide AppendStatement;
  }

  /** One Sig_structure has one header and one payload. */
  ghost predicate SigStructureInjective(x: Setup) {
    forall header, payload, header', payload' ::
      x.sigStructure(header, payload) == x.sigStructure(header', payload') ==> header == header' && payload == payload'
  }

  /** Statements that may share an entry: the same bytes, one signing act, or one is the Sig_structure that
      the other one signs. */
  predicate SameStatement(x: Setup, b: Bytes, b': Bytes) {
    || b == b'
    || SameSigningAct(x, b, b')
    || IsInput(x, b, SigStructure, b') || IsInput(x, b', SigStructure, b)
  }

  /** An executed submission of a run keeps the entry it was answered with. */
  lemma {:induction false} AnswerStays(x: Setup, ops: seq<Op>, op: Op, later: seq<Op>)
    requires IsSubmission(op) && Register(x, Exec(x, ops).w, SubmissionOf(x, op)).1.Ok?
    ensures var res := Register(x, Exec(x, ops).w, SubmissionOf(x, op)).1.value;
      Commits(x, Exec(x, ops + [op] + later).w.store.log, SubmissionOf(x, op).bytes, res)
  {
    AnswersCommit(x, ops, SubmissionOf(x, op));
    ExecOne(x, ops, op);
    RunGrows(x, ops + [op], later);
    hide Exec, Register, IsInput;
  }

  /** Two submissions of a run that are answered with one entry are the same statement, or two different
      SHA-256 inputs with one hash are computed. */
  function SharedEntryCollision(x: Setup, ops: seq<Op>, op: Op, later: seq<Op>, q: Submission): (c: (Bytes, Bytes))
    requires SigStructureInjective(x)
    requires IsSubmission(op) && Register(x, Exec(x, ops).w, SubmissionOf(x, op)).1.Ok?
    requires Register(x, Exec(x, ops + [op] + later).w, q).1.Ok?
    requires Register(x, Exec(x, ops).w, SubmissionOf(x, op)).1.value.leafIndex
      == Register(x, Exec(x, ops + [op] + later).w, q).1.value.leafIndex
    requires !SameStatement(x, SubmissionOf(x, op).bytes, q.bytes)
    ensures c.0 != c.1 && x.keys.sha256(c.0) == x.keys.sha256(c.1)
  {
    var first := Register(x, Exec(x, ops).w, SubmissionOf(x, op)).1.value;
    var again := Register(x, Exec(x, ops + [op] + later).w, q).1.value;
    SharedEntryInputs(x, ops, op, later, q);
    (InputOf(x, SubmissionOf(x, op).bytes, first.scheme), InputOf(x, q.bytes, again.scheme))
  }

  lemma {:induction false} SharedEntryInputs(x: Setup, ops: seq<Op>, op: Op, later: seq<Op>, q: Submission)
    requires SigStructureInjective(x)
    requires IsSubmission(op) && Register(x, Exec(x, ops).w, SubmissionOf(x, op)).1.Ok?
    requires Register(x, Exec(x, ops + [op] + later).w, q).1.Ok?
    requires Register(x, Exec(x, ops).w, SubmissionOf(x, op)).1.value.leafIndex
      == Register(x, Exec(x, ops + [op] + later).w, q).1.value.leafIndex
    requires !SameStatement(x, SubmissionOf(x, op).bytes, q.bytes)
    ensures var first := Register(x, Exec(x, ops).w, SubmissionOf(x, op)).1.value;
      var again := Register(x, Exec(x, ops + [op] + later).w, q).1.value;
      var i, j := InputOf(x, SubmissionOf(x, op).bytes, first.scheme), InputOf(x, q.bytes, again.scheme);
      i != j && x.keys.sha256(i) == x.keys.sha256(j)
  {
    var b, all := SubmissionOf(x, op).bytes, ops + [op] + later;
    var first := Register(x, Exec(x, ops).w, SubmissionOf(x, op)).1.value;
    var again := Register(x, Exec(x, all).w, q).1.value;
    AnswerStays(x, ops, op, later);
    AnswersCommit(x, all, q);
    LogOnlyGrows(x, Exec(x, all).w, q);
    hide Exec, Register;
    DifferentInputs(x, b, first.scheme, q.bytes, again.scheme);
  }

  lemma LogOnlyGrows(x: Setup, w: Witness, q: Submission)
    ensures w.store.log <= Register(x, w, q).0.store.log
  {
    OnlyFreshChangesStore(x, w, q);
    if Fresh(x, w, q) {
      FreshIssues(x, Run(w, [], [], [], [], {}), q);
    }
    hide Register, Committed;
  }

  lemma DifferentInputs(x: Setup, b: Bytes, scheme: Scheme, b': Bytes, scheme': Scheme)
    requires SigStructureInjective(x) && !SameStatement(x, b, b')
    requires IsInput(x, b, scheme, InputOf(x, b, scheme)) && IsInput(x, b', scheme', InputOf(x, b', scheme'))
    ensures InputOf(x, b, scheme) != InputOf(x, b', scheme')
  {
  }

  /** anchor appends one entry that commits to its payload, at its time. */
  lemma {:induction false} AnchorCommits(x: Setup, w: Witness, payload: Bytes, attestedAt: int)
    ensures var s, s' := w.store, Anchor(x, w, payload, attestedAt).store;
      && |s'.log| == |s.log| + 1 && s.log <= s'.log && s' == s.(log := s'.log)
      && var e := s'.log[|s.log|];
         && e.kind == RootEntry && e.logIndex == |s.log| && e.loggedAt == attestedAt
         && e.payloadHash == x.keys.sha256(payload)
  {
  }

  // ---------------------------------------------------------------- what a receipt says

  /** Whole seconds towards zero, of microseconds. */
  predicate WholeSeconds(seconds: int, micros: int) {
    if micros >= 0 then seconds * 1_000_000 <= micros < (seconds + 1) * 1_000_000
    else (seconds - 1) * 1_000_000 < micros <= seconds * 1_000_000
  }

  /** A new receipt is dated with the witness's own clock, carries the grade it was asked to sign and, for
      a witnessed checkpoint and no other, an assertion of that checkpoint, its predecessor and its time;
      and the head covers the new entry at once. */
  lemma {:induction false} ReceiptSays(x: Setup, ops: seq<Op>, q: Submission)
    requires Sound(x.keys)
    requires var (w', res) := Register(x, Exec(x, ops).w, q); res.Ok? && w' != Exec(x, ops).w
    ensures var (w', res) := Register(x, Exec(x, ops).w, q);
      var header, n := res.value.receipt.header, |Exec(x, ops).w.store.log|;
      && |w'.store.log| == n + 1 && w'.store.log[n].loggedAt == q.loggedAt
      && WholeSeconds(header.iat, q.loggedAt) && header.grade == q.grade
      && header.continuity == (
           if q.cp.Some? && res.value.continuityGrade == Some(Witnessed) then
             Some(Continuity(q.cp.value.logId, q.cp.value.prevSize, q.cp.value.prevRoot, q.cp.value.size,
                             q.cp.value.root, q.loggedAt))
           else None)
      && w'.store.head.Some? && w'.store.head.value.treeSize == n + 1 && w'.store.head.value.timestamp == q.headAt
      && n + 1 in w'.store.history
  {
    ExecKeepsInv(x, ops);
    var r := Exec(x, ops);
    OnlyFreshChangesStore(x, r.w, q);
    FreshHeader(x, r.w, q);
    hide Exec, RootAt, Leaves;
  }

  lemma FreshHeader(x: Setup, w: Witness, q: Submission)
    requires Fresh(x, w, q)
    ensures var (w', res) := Register(x, w, q);
      && res.Ok? && res.value.continuityGrade == GradeOf(x, w, q)
      && res.value.receipt.header == HeaderFor(q, GradeOf(x, w, q))
  {
    hide RootAt, Leaves, Lookup;
  }

  /** So a new checkpoint of POST /checkpoints is entered under the digest of its body, and its receipt
      carries its own grade. */
  lemma {:induction false} CheckpointReceiptSays(x: Setup, ops: seq<Op>, cp: Checkpoint, loggedAt: int, headAt: int)
    requires Sound(x.keys)
    requires var (w', res) := RegisterCheckpoint(x, Exec(x, ops).w, cp, loggedAt, headAt);
      res.Ok? && w' != Exec(x, ops).w
    ensures var (w', res) := RegisterCheckpoint(x, Exec(x, ops).w, cp, loggedAt, headAt);
      && Commits(x, w'.store.log, Admission.DigestOf(x, cp), res.value)
      && WholeSeconds(res.value.receipt.header.iat, loggedAt) && res.value.receipt.header.grade == cp.grade
      && (res.value.receipt.header.continuity.Some? <==> res.value.continuityGrade == Some(Witnessed))
  {
    hide Exec, Register, Commits;
    var q := FromCheckpoint(x, cp, loggedAt, headAt);
    assert q == Submission(Admission.DigestOf(x, cp), cp.grade, Some(cp), loggedAt, headAt);
    AnswersCommit(x, ops, q);
    ReceiptSays(x, ops, q);
  }

  // ---------------------------------------------------------------- what a tree head commits to

  /** What the leaf of an entry covers: of a statement its hash, of a root entry all but the signature. */
  predicate SameCommitted(e: Entry, f: Entry) {
    && e.kind == f.kind && e.payloadHash == f.payloadHash
    && (e.kind == RootEntry ==>
      e.logIndex == f.logIndex && e.prevLogHash == f.prevLogHash && e.loggedAt == f.loggedAt)
  }

  datatype HeadForgery =
    | NodeForgery(c: Collision)
    | LeafForgery(p: LeafPayload, q: LeafPayload)

  predicate IsHeadForgery(a: Keys, f: HeadForgery) {
    match f
    case NodeForgery(c) => IsCollision(a.tree, c)
    case LeafForgery(p, q) => p != q && a.leafHash(p) == a.leafHash(q)
  }

  function LeafPayloadOf(e: Entry): LeafPayload {
    match e.kind
    case ScittStatement => RawHash(e.payloadHash)
    case RootEntry => EntryRecord(e.logIndex, e.kind, e.payloadHash, e.prevLogHash, e.loggedAt)
  }

  function FirstDifferent(log1: seq<Entry>, log2: seq<Entry>, n: nat): (i: nat)
    requires n <= |log1| && n <= |log2| && exists j :: 0 <= j < n && !SameCommitted(log1[j], log2[j])
    ensures i < n && !SameCommitted(log1[i], log2[i])
  {
    if !SameCommitted(log1[n - 1], log2[n - 1]) then n - 1 else FirstDifferent(log1, log2, n - 1)
  }

  /** A tree head commits to the entries below it: from two logs with one tree hash at one size that
      differ in an entry there, two different node inputs or two different leaves with one hash. */
  function ForgedHead(a: Keys, log1: seq<Entry>, log2: seq<Entry>, n: nat): (f: HeadForgery)
    requires FixedWidth(a.tree) && forall p :: IsWide(a.tree, a.leafHash(p))
    requires n <= |log1| && n <= |log2| && RootAt(a, log1, n) == RootAt(a, log2, n)
    requires exists j :: 0 <= j < n && !SameCommitted(log1[j], log2[j])
    ensures IsHeadForgery(a, f)
  {
    var l1, l2 := Leaves(a, log1)[..n], Leaves(a, log2)[..n];
    if l1 != l2 then NodeForgery(ConsistencyProof.SameRootCollision(a.tree, l1, l2))
    else
      var i := FirstDifferent(log1, log2, n);
      assert l1[i] == Leaf(a, log1[i]) && l2[i] == Leaf(a, log2[i]);
      LeafForgery(LeafPayloadOf(log1[i]), LeafPayloadOf(log2[i]))
  }
}
