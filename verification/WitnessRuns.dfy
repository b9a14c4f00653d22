// Whole runs of one witness process: any sequence of operations, with the two critical sections of
// witness_checkpoint as separate operations that others may come between. The history fields of a
// run only remember what happened; no operation reads them.
module WitnessRuns {
  import opened Basics
  import opened MerkleTree
  import opened Authority
  import opened HashChain
  import opened Checkpoints
  import opened WitnessState
  import InclusionProof

  datatype Op =
    | Submit(statement: Bytes, loggedAt: int, headAt: int)
    | SubmitCheckpoint(cp: Checkpoint, loggedAt: int, headAt: int)
    | FinishCheckpoint(i: nat)
    | AnchorRoot(payload: Bytes, attestedAt: int)
    | Refresh(headAt: int)
    | GetHead(headAt: int)
    | PruneOlder(cutoff: int)

  datatype Pending = Pending(cp: Checkpoint, result: Registration)

  datatype Issued = Issued(entryHash: Digest, receipt: Receipt)

  /** A newly accepted checkpoint of either surface, and the tip of its log at that moment. */
  datatype Acceptance =
    | Declared(m: MmrCheckpoint, before: Option<Tip>)
    | Direct(cp: Checkpoint, grade: Grade, before: Option<Tip>)

  datatype Run = Run(
    w: Witness,
    /** Checkpoints registered but not yet on the read surface. */
    pending: seq<Pending>,
    /** History: checkpoints put on the read surface, receipts issued, checkpoints accepted, dedup
        keys pruned. */
    recorded: seq<Pending>,
    issued: seq<Issued>,
    accepted: seq<Acceptance>,
    pruned: set<Digest>)

  const START := Run(EMPTY_WITNESS, [], [], [], [], {})

  function TipOfLog(tips: map<string, Tip>, logId: string): Option<Tip> {
    if logId in tips then Some(tips[logId]) else None
  }

  function Acceptances(tips: map<string, Tip>, res: Registration, cp: Option<Checkpoint>): seq<Acceptance> {
    (if res.declared.Some? then [Declared(res.declared.value.0, TipOfLog(tips, res.declared.value.0.logId))] else []) +
    (if cp.Some? && res.continuityGrade.Some?
     then [Direct(cp.value, res.continuityGrade.value, TipOfLog(tips, cp.value.logId))] else [])
  }

  predicate IsSubmission(op: Op) {
    op.Submit? || op.SubmitCheckpoint?
  }

  function SubmissionOf(x: Setup, op: Op): Submission
    requires IsSubmission(op)
  {
    if op.Submit? then Submission(op.statement, None, None, op.loggedAt, op.headAt)
    else FromCheckpoint(x, op.cp, op.loggedAt, op.headAt)
  }

  function Submitted(x: Setup, r: Run, q: Submission): Run {
    var (w, res) := Register(x, r.w, q);
    var isNew := res.Ok? && |w.store.log| > |r.w.store.log|;
    r.(w := w,
       pending := r.pending + (if res.Ok? && q.cp.Some? then [Pending(q.cp.value, res.value)] else []),
       issued := r.issued + (if isNew then [Issued(res.value.entryHash, res.value.receipt)] else []),
       accepted := r.accepted + (if isNew then Acceptances(r.w.store.tips, res.value, q.cp) else []))
  }

  function Step(x: Setup, r: Run, op: Op): Run {
    match op
    case Submit(_, _, _) => Submitted(x, r, SubmissionOf(x, op))
    case SubmitCheckpoint(_, _, _) => Submitted(x, r, SubmissionOf(x, op))
    case FinishCheckpoint(i) =>
      if i < |r.pending| then
        r.(w := RecordCheckpoint(r.w, r.pending[i].cp, r.pending[i].result),
           pending := r.pending[..i] + r.pending[i + 1..],
           recorded := r.recorded + [r.pending[i]])
      else r
    case AnchorRoot(payload, attestedAt) => r.(w := Anchor(x, r.w, payload, attestedAt))
    case Refresh(headAt) => r.(w := RefreshHead(x, r.w, headAt))
    case GetHead(headAt) => r.(w := ReadHead(x, r.w, headAt).0)
    case PruneOlder(cutoff) =>
      var s := Prune(r.w.store, cutoff);
      r.(w := r.w.(store := s), pruned := r.pruned + (r.w.store.statements.Keys - s.statements.Keys))
  }

  function Exec(x: Setup, ops: seq<Op>): Run {
    if ops == [] then START else Step(x, Exec(x, ops[..|ops| - 1]), ops[|ops| - 1])
  }

  lemma ExecOne(x: Setup, ops: seq<Op>, op: Op)
    ensures Exec(x, ops + [op]) == Step(x, Exec(x, ops), op)
  {
    hide Step;
    assert (ops + [op])[..|ops|] == ops;
  }

  lemma ExecTwo(x: Setup, ops: seq<Op>, op1: Op, op2: Op)
    ensures Exec(x, ops + [op1, op2]) == Step(x, Step(x, Exec(x, ops), op1), op2)
  {
    hide Exec, Step;
    assert ops + [op1, op2] == ops + [op1] + [op2];
    ExecOne(x, ops, op1);
    ExecOne(x, ops + [op1], op2);
  }

  // ---------------------------------------------------------------- outcomes of one registration

  /** A submission that passes the size limit, the dedup lookup and both gates. */
  predicate Fresh(x: Setup, w: Witness, q: Submission) {
    && |q.bytes| <= MAX_STATEMENT_BYTES && DeclaredCheckpoint(x, q.bytes).Ok? && Lookup(x, w.store, q.bytes).None?
    && var (counts, status) := GateDeclared(x, w, DeclaredCheckpoint(x, q.bytes).value);
       status.Ok? && GateContinuity(x, w.store.tips, counts, q.cp).1.Ok?
  }

  /** The grade a fresh submission earns from the continuity gate. */
  function GradeOf(x: Setup, w: Witness, q: Submission): Option<Grade>
    requires Fresh(x, w, q)
  {
    GateContinuity(x, w.store.tips, GateDeclared(x, w, DeclaredCheckpoint(x, q.bytes).value).0, q.cp).1.value
  }

  /** The store after a fresh submission. */
  function Committed(x: Setup, w: Witness, q: Submission): Store
    requires Fresh(x, w, q)
  {
    var s := AppendStatement(x, w.store, q, HeaderFor(q, GradeOf(x, w, q)));
    s.(tips := MoveTips(s.tips, DeclaredCheckpoint(x, q.bytes).value, q.cp, GradeOf(x, w, q)))
  }

  /** Only a fresh submission changes the store: refusals and resubmissions leave log, cache, tips,
      heads, records and conflicts exactly as they were. */
  lemma {:induction false} OnlyFreshChangesStore(x: Setup, w: Witness, q: Submission)
    ensures var (w', res) := Register(x, w, q);
      && w'.store == (if Fresh(x, w, q) then Committed(x, w, q) else w.store)
      && (Fresh(x, w, q) ==> res.Ok?)
      && (res.Ok? && !Fresh(x, w, q) ==> w' == w)
  {
    hide AppendStatement;
  }

  /** The one thing a refusal can change: under warn, a declared checkpoint of a known log that does
      not extend its tip has been counted before it is refused. */
  lemma {:induction false} RefusalCountsOnlyUnderWarn(x: Setup, w: Witness, q: Submission)
    requires q.cp.None? || DeclaredCheckpoint(x, q.bytes) == Ok(None)
    requires Register(x, w, q).1.Err?
    ensures var (w', res) := Register(x, w, q);
      w'.wouldRefuse != w.wouldRefuse <==> x.policy == Warn && res.error == Rollback
  {
    hide AppendStatement;
    var counts := w.wouldRefuse;
    forall logId: string ensures Bump(counts, logId) != counts {
      assert Bump(counts, logId)[logId] != if logId in counts then counts[logId] else 0;
    }
  }

  // ---------------------------------------------------------------- log, heads, receipts, cache

  ghost predicate HeadsGood(a: Keys, log: seq<Entry>, head: Option<TreeHead>, history: map<nat, TreeHead>) {
    && (forall n :: n in history ==> history[n].treeSize == n && HeadOk(a, log, history[n]))
    && (head.Some? ==> HeadOk(a, log, head.value))
  }

  /** A receipt folds its leaf to the tree hash of the log's first treeSize entries, its signature
      is over that hash, its signed time is the entry's, and a head of that size is in the history. */
  ghost predicate ReceiptGood(a: Keys, log: seq<Entry>, history: map<nat, TreeHead>, i: Issued) {
    var n := i.receipt.treeSize;
    && 0 < n <= |log| && i.receipt.leafIndex == n - 1
    && log[n - 1].kind == ScittStatement && log[n - 1].payloadHash == i.entryHash
    && InclusionProof.Accepts(a.tree, a.leafHash(RawHash(i.entryHash)), n - 1, n, i.receipt.auditPath,
                              RootAt(a, log, n))
    && a.verify(ReceiptMessage(i.receipt.header, RootAt(a, log, n)), i.receipt.signature)
    && i.receipt.header.iat == Seconds(log[n - 1].loggedAt)
    && n in history
  }

  ghost predicate LogInv(a: Keys, log: seq<Entry>, head: Option<TreeHead>, history: map<nat, TreeHead>,
                         issued: seq<Issued>)
  {
    && Chained(a, log) && HeadsGood(a, log, head, history)
    && forall i :: i in issued ==> ReceiptGood(a, log, history, i)
  }

  /** Every cached receipt is one that was issued under its key. */
  ghost predicate CacheInv(statements: map<Digest, Cached>, issued: seq<Issued>) {
    forall k :: k in statements ==> CachedGood(k, statements[k], issued)
  }

  predicate CachedGood(k: Digest, c: Cached, issued: seq<Issued>) {
    c.leafIndex == c.receipt.leafIndex && c.treeSize == c.receipt.treeSize && Issued(k, c.receipt) in issued
  }

  ghost predicate Inv(x: Setup, r: Run) {
    var s := r.w.store;
    LogInv(x.keys, s.log, s.head, s.history, r.issued) && CacheInv(s.statements, r.issued)
  }

  lemma AppendKeepsLogInv(a: Keys, s: Store, issued: seq<Issued>, kind: Kind, payload: Bytes, at: int)
    requires Sound(a) && LogInv(a, s.log, s.head, s.history, issued)
    ensures LogInv(a, Appended(a, s.log, kind, payload, at), s.head, s.history, issued)
  {
    hide Chained, RootAt, InclusionProof.Accepts;
    var log := Appended(a, s.log, kind, payload, at);
    ChainedAppend(a, s.log, kind, payload, at);
    forall h | HeadOk(a, s.log, h) ensures HeadOk(a, log, h) {
      HeadOkGrows(a, s.log, log, h);
    }
    forall i | ReceiptGood(a, s.log, s.history, i) ensures ReceiptGood(a, log, s.history, i) {
      RootAtStable(a, s.log, log, i.receipt.treeSize);
    }
  }

  lemma SignKeepsLogInv(a: Keys, s: Store, issued: seq<Issued>, headAt: int)
    requires Sound(a) && LogInv(a, s.log, s.head, s.history, issued)
    ensures var s' := SignAndPersist(a, s, headAt);
      && LogInv(a, s'.log, s'.head, s'.history, issued)
      && |s.log| in s'.history
  {
    hide Chained, RootAt, InclusionProof.Accepts;
    SignedHeadOk(a, s.log, |s.log|, headAt);
  }

  lemma IssuedReceiptGood(a: Keys, log: seq<Entry>, header: ReceiptHeader, history: map<nat, TreeHead>)
    requires Sound(a) && log != [] && log[|log| - 1].kind == ScittStatement && |log| in history
    requires header.iat == Seconds(log[|log| - 1].loggedAt)
    ensures ReceiptGood(a, log, history, Issued(log[|log| - 1].payloadHash, IssueReceipt(a, log, header)))
  {
    hide InclusionProof.Accepts, TreeRoot;
    var n, leaves := |log|, Leaves(a, log);
    assert leaves[..n] == leaves;
    InclusionProof.GeneratedPathAccepted(a.tree, n - 1, leaves);
    var m := ReceiptMessage(header, RootAt(a, log, n));
    assert a.verify(m, a.attest(m));
  }

  lemma AppendStatementKeepsInv(x: Setup, r: Run, q: Submission, header: ReceiptHeader)
    requires Sound(x.keys) && Inv(x, r) && header.iat == Seconds(q.loggedAt)
    ensures var s := AppendStatement(x, r.w.store, q, header);
      var key := EntryHash(x, q.bytes);
      && key in s.statements
      && LogInv(x.keys, s.log, s.head, s.history, r.issued + [Issued(key, s.statements[key].receipt)])
      && CacheInv(s.statements, r.issued + [Issued(key, s.statements[key].receipt)])
  {
    hide ReceiptGood, IssueReceipt, Chained, HeadsGood, NewEntry;
    var a, s0 := x.keys, r.w.store;
    var log := Appended(a, s0.log, ScittStatement, Preimage(x, q.bytes).0, q.loggedAt);
    var s := AppendStatement(x, s0, q, header);
    var added := Issued(EntryHash(x, q.bytes), s.statements[EntryHash(x, q.bytes)].receipt);
    AppendKeepsLogInv(a, s0, r.issued, ScittStatement, Preimage(x, q.bytes).0, q.loggedAt);
    SignKeepsLogInv(a, s0.(log := log, statements := s.statements), r.issued, q.headAt);
    AppendedEntry(a, s0.log, ScittStatement, Preimage(x, q.bytes).0, q.loggedAt);
    IssuedReceiptGood(a, log, header, s.history);
    IssueReceiptShape(a, log, header);
    assert added in r.issued + [added];
  }

  lemma AppendedEntry(a: Keys, log: seq<Entry>, kind: Kind, payload: Bytes, at: int)
    ensures var log' := Appended(a, log, kind, payload, at);
      && |log'| == |log| + 1 && log'[..|log|] == log
      && log'[|log|].kind == kind && log'[|log|].payloadHash == a.sha256(payload) && log'[|log|].loggedAt == at
  {
  }

  lemma IssueReceiptShape(a: Keys, log: seq<Entry>, header: ReceiptHeader)
    requires log != []
    ensures var c := IssueReceipt(a, log, header);
      c.treeSize == |log| && c.leafIndex == |log| - 1
  {
  }

  lemma {:induction false} SubmittedKeepsInv(x: Setup, r: Run, q: Submission)
    requires Sound(x.keys) && Inv(x, r)
    ensures Inv(x, Submitted(x, r, q))
  {
    OnlyFreshChangesStore(x, r.w, q);
    if Fresh(x, r.w, q) {
      FreshIssues(x, r, q);
      AppendStatementKeepsInv(x, r, q, HeaderFor(q, GradeOf(x, r.w, q)));
    }
  }

  /** What a fresh submission leaves in the store and in the histories. */
  lemma FreshIssues(x: Setup, r: Run, q: Submission)
    requires Fresh(x, r.w, q)
    ensures var s, r' := Committed(x, r.w, q), Submitted(x, r, q);
      var key := EntryHash(x, q.bytes);
      && r'.w.store == s
      && |s.log| == |r.w.store.log| + 1 && s.log[..|r.w.store.log|] == r.w.store.log
      && s.log[|r.w.store.log|].kind == ScittStatement && s.log[|r.w.store.log|].payloadHash == key
      && key in s.statements
      && s.statements.Keys == r.w.store.statements.Keys + {key}
      && (forall k :: k in r.w.store.statements && k != key ==> s.statements[k] == r.w.store.statements[k])
      && r'.issued == r.issued + [Issued(key, s.statements[key].receipt)]
  {
    hide IssueReceipt, SignedHead, RootAt, GateDeclared, GateContinuity, Lookup, DeclaredCheckpoint;
  }

  lemma AppendKeepsReadSurface(x: Setup, w: Witness, q: Submission)
    requires Fresh(x, w, q)
    ensures var s := Committed(x, w, q);
      s.records == w.store.records && s.conflicts == w.store.conflicts
  {
  }

  lemma StepKeepsInv(x: Setup, r: Run, op: Op)
    requires Sound(x.keys) && Inv(x, r)
    ensures Inv(x, Step(x, r, op))
  {
    match op
    case Submit(_, _, _) => SubmittedKeepsInv(x, r, SubmissionOf(x, op));
    case SubmitCheckpoint(_, _, _) => SubmittedKeepsInv(x, r, SubmissionOf(x, op));
    case AnchorRoot(payload, attestedAt) =>
      AppendKeepsLogInv(x.keys, r.w.store, r.issued, RootEntry, payload, attestedAt);
    case Refresh(headAt) => SignKeepsLogInv(x.keys, r.w.store, r.issued, headAt);
    case GetHead(headAt) => SignKeepsLogInv(x.keys, r.w.store, r.issued, headAt);
    case _ =>
  }

  lemma {:induction false} ExecKeepsInv(x: Setup, ops: seq<Op>)
    requires Sound(x.keys)
    ensures Inv(x, Exec(x, ops))
  {
    if ops != [] {
      ExecKeepsInv(x, ops[..|ops| - 1]);
      StepKeepsInv(x, Exec(x, ops[..|ops| - 1]), ops[|ops| - 1]);
    }
  }
}
