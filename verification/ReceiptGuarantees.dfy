// What a holder of a receipt keeps, and what a resubmission gets, over whole runs.
module ReceiptGuarantees {
  import opened Basics
  import opened Authority
  import opened HashChain
  import opened WitnessState
  import opened WitnessRuns
  import ConsistencyProof

  // ---------------------------------------------------------------- nothing retained ever changes

  /** From one moment of a run to a later one. */
  ghost predicate Grown(r: Run, t: Run) {
    var s, s' := r.w.store, t.w.store;
    && s.log <= s'.log && r.issued <= t.issued && r.pruned <= t.pruned
    && (forall n :: n in s.history ==> n in s'.history && s'.history[n] == s.history[n])
    && (s.head.Some? ==> s'.head.Some? && !Precedes(s'.head.value, s.head.value))
    && (forall k :: k in s.records ==> k in s'.records && s'.records[k] == s.records[k])
    && (forall k :: k in s.statements && k !in t.pruned ==> k in s'.statements && s'.statements[k] == s.statements[k])
  }

  lemma SubmittedGrows(x: Setup, r: Run, q: Submission)
    ensures Grown(r, Submitted(x, r, q))
  {
    OnlyFreshChangesStore(x, r.w, q);
    if Fresh(x, r.w, q) {
      FreshIssues(x, r, q);
      hide RootAt, GateDeclared, GateContinuity, Lookup, DeclaredCheckpoint, IssueReceipt;
      LookupNone(x, r.w.store, q.bytes);
    }
  }

  lemma LookupNone(x: Setup, s: Store, b: Bytes)
    requires Lookup(x, s, b).None?
    ensures EntryHash(x, b) !in s.statements && LegacyHash(x, b) !in s.statements
  {
  }

  lemma {:induction false} StepGrows(x: Setup, r: Run, op: Op)
    ensures Grown(r, Step(x, r, op))
  {
    if IsSubmission(op) {
      hide Grown, Submitted;
      SubmittedGrows(x, r, SubmissionOf(x, op));
    } else {
      match op
      case FinishCheckpoint(i) => FinishGrows(x, r, i);
      case PruneOlder(cutoff) => PruneGrows(x, r, cutoff);
      case _ => hide RootAt, NewEntry, SignedHead, PutRecord, Prune;
    }
  }

  lemma FinishGrows(x: Setup, r: Run, i: nat)
    ensures Grown(r, Step(x, r, FinishCheckpoint(i)))
  {
  }

  lemma PruneGrows(x: Setup, r: Run, cutoff: int)
    ensures Grown(r, Step(x, r, PruneOlder(cutoff)))
  {
  }

  lemma NothingChanges(r: Run)
    ensures Grown(r, r)
  {
  }

  lemma GrownTransitive(r: Run, s: Run, t: Run)
    requires Grown(r, s) && Grown(s, t)
    ensures Grown(r, t)
  {
  }

  /** Log entries, retained heads, issued receipts, read-surface records and unpruned cache entries
      never change, and the stored head never goes back, between any two moments of any run. */
  lemma {:induction false} RunGrows(x: Setup, ops: seq<Op>, later: seq<Op>)
    ensures Grown(Exec(x, ops), Exec(x, ops + later))
  {
    hide Grown, Step, Exec;
    if later == [] {
      assert ops + later == ops;
      NothingChanges(Exec(x, ops));
    } else {
      var n := |later| - 1;
      RunGrows(x, ops, later[..n]);
      assert ops + later == ops + later[..n] + [later[n]];
      ExecOne(x, ops + later[..n], later[n]);
      StepGrows(x, Exec(x, ops + later[..n]), later[n]);
      GrownTransitive(Exec(x, ops), Exec(x, ops + later[..n]), Exec(x, ops + later));
    }
  }

  // ---------------------------------------------------------------- receipts stay good

  /** Every receipt ever issued, pruned from the cache or not, still folds its leaf to the tree hash
      of the log's first treeSize entries at every later moment; the head history holds that hash at
      that size, and a consistency proof that verifies exists to every later retained head. */
  lemma {:induction false} ReceiptsStayGood(x: Setup, ops: seq<Op>, later: seq<Op>, i: Issued, m: nat)
    requires Sound(x.keys) && i in Exec(x, ops).issued
    requires m in Exec(x, ops + later).w.store.history && m >= i.receipt.treeSize
    ensures var s, n := Exec(x, ops + later).w.store, i.receipt.treeSize;
      && ReceiptGood(x.keys, s.log, s.history, i)
      && n <= |Exec(x, ops).w.store.log| && RootAt(x.keys, s.log, n) == RootAt(x.keys, Exec(x, ops).w.store.log, n)
      && s.history[n].rootHash == RootAt(x.keys, s.log, n)
      && ConsistencyProof.Generate(x.keys.tree, n, m, Leaves(x.keys, s.log)).Ok?
      && ConsistencyProof.Accepts(x.keys.tree, n, m, s.history[n].rootHash, s.history[m].rootHash,
                                  ConsistencyProof.Generate(x.keys.tree, n, m, Leaves(x.keys, s.log)).value)
  {
    hide ConsistencyProof.Accepts, ConsistencyProof.Generate, Step, Chained;
    ExecKeepsInv(x, ops);
    ExecKeepsInv(x, ops + later);
    RunGrows(x, ops, later);
    var s0, s, n := Exec(x, ops).w.store, Exec(x, ops + later).w.store, i.receipt.treeSize;
    assert ReceiptGood(x.keys, s0.log, s0.history, i) && ReceiptGood(x.keys, s.log, s.history, i);
    RootAtStable(x.keys, s0.log, s.log, n);
    assert HeadOk(x.keys, s.log, s.history[n]) && HeadOk(x.keys, s.log, s.history[m]);
    ConsistencyProof.GeneratedProofAccepted(x.keys.tree, n, m, Leaves(x.keys, s.log));
  }

  /** verify_log accepts the log of every reachable state and every prefix of it. */
  lemma {:induction false} ReachableLogVerifies(x: Setup, ops: seq<Op>, n: nat)
    requires Sound(x.keys) && n <= |Exec(x, ops).w.store.log|
    ensures Chained(x.keys, Exec(x, ops).w.store.log[..n])
  {
    ExecKeepsInv(x, ops);
    ChainedPrefix(x.keys, Exec(x, ops).w.store.log, n);
  }

  /** A head read by a client covers the whole log and is its signed tree hash. One that is stored already
      is returned as it is, otherwise a new one is signed with the present time. */
  lemma {:induction false} ReadHeadCovers(x: Setup, ops: seq<Op>, headAt: int)
    requires Sound(x.keys)
    ensures var w := Exec(x, ops).w; var (w', h) := ReadHead(x, w, headAt); var log := w.store.log;
      && h.treeSize == |log| && HeadOk(x.keys, log, h) && w'.store.head == Some(h)
      && (log == [] ==> h.rootHash == x.keys.tree.empty)
      && w'.store == w.store.(head := w'.store.head, history := w'.store.history)
      && (if w.store.head.Some? && w.store.head.value.treeSize == |log| then w' == w else h.timestamp == headAt)
  {
    ExecKeepsInv(x, ops);
    SignedHeadOk(x.keys, Exec(x, ops).w.store.log, |Exec(x, ops).w.store.log|, headAt);
  }

  // ---------------------------------------------------------------- exactly once

  predicate LeafOf(log: seq<Entry>, j: nat, key: Digest) {
    j < |log| && log[j].kind == ScittStatement && log[j].payloadHash == key
  }

  /** Keys that were never pruned: one leaf each, and cached exactly when they have one. */
  ghost predicate OnceInv(r: Run) {
    var s := r.w.store;
    && (forall k :: k in s.statements ==> LeafOf(s.log, s.statements[k].leafIndex, k))
    && (forall j, k :: LeafOf(s.log, j, k) && k !in r.pruned ==> k in s.statements)
    && (forall i, j, k :: LeafOf(s.log, i, k) && LeafOf(s.log, j, k) && k !in r.pruned ==> i == j)
  }

  lemma SubmittedKeepsOnce(x: Setup, r: Run, q: Submission)
    requires OnceInv(r)
    ensures OnceInv(Submitted(x, r, q))
  {
    OnlyFreshChangesStore(x, r.w, q);
    if Fresh(x, r.w, q) {
      FreshIssues(x, r, q);
      LookupNone(x, r.w.store, q.bytes);
      FreshLeaf(x, r.w, q);
      hide Submitted, Committed, Fresh, Lookup, EntryHash, OnceInv, LeafOf;
      OneMoreLeaf(r, Submitted(x, r, q), EntryHash(x, q.bytes));
    }
  }

  /** One new statement leaf, and its key in the cache where it was not. */
  lemma OneMoreLeaf(r: Run, r': Run, key: Digest)
    requires OnceInv(r) && key !in r.w.store.statements && r'.pruned == r.pruned
    requires var s, s' := r.w.store, r'.w.store;
      && |s'.log| == |s.log| + 1 && s'.log[..|s.log|] == s.log
      && s'.log[|s.log|].kind == ScittStatement && s'.log[|s.log|].payloadHash == key
      && s'.statements.Keys == s.statements.Keys + {key} && s'.statements[key].leafIndex == |s.log|
      && forall k :: k in s.statements && k != key ==> s'.statements[k] == s.statements[k]
    ensures OnceInv(r')
  {
    var s, s' := r.w.store, r'.w.store;
    assert forall j: nat :: j < |s.log| ==> s'.log[j] == s'.log[..|s.log|][j];
    assert forall j, k :: LeafOf(s'.log, j, k) <==> LeafOf(s.log, j, k) || (j == |s.log| && k == key);
  }

  lemma FreshLeaf(x: Setup, w: Witness, q: Submission)
    requires Fresh(x, w, q)
    ensures var s := Committed(x, w, q);
      EntryHash(x, q.bytes) in s.statements && s.statements[EntryHash(x, q.bytes)].leafIndex == |w.store.log|
      && s.statements[EntryHash(x, q.bytes)].treeSize == |w.store.log| + 1
  {
  }

  lemma StepKeepsOnce(x: Setup, r: Run, op: Op)
    requires OnceInv(r)
    ensures OnceInv(Step(x, r, op))
  {
    hide RootAt;
    match op
    case Submit(_, _, _) => SubmittedKeepsOnce(x, r, SubmissionOf(x, op));
    case SubmitCheckpoint(_, _, _) => SubmittedKeepsOnce(x, r, SubmissionOf(x, op));
    case AnchorRoot(payload, attestedAt) =>
      AppendedEntry(x.keys, r.w.store.log, RootEntry, payload, attestedAt);
      var log' := Appended(x.keys, r.w.store.log, RootEntry, payload, attestedAt);
      assert forall j, k :: LeafOf(log', j, k) <==> LeafOf(r.w.store.log, j, k);
    case _ =>
  }

  lemma {:induction false} ExecKeepsOnce(x: Setup, ops: seq<Op>)
    ensures OnceInv(Exec(x, ops))
  {
    if ops != [] {
      hide OnceInv, Step;
      ExecKeepsOnce(x, ops[..|ops| - 1]);
      StepKeepsOnce(x, Exec(x, ops[..|ops| - 1]), ops[|ops| - 1]);
    } else {
      assert OnceInv(START);
    }
  }

  lemma {:induction false} PrunedOnlyByPruning(x: Setup, ops: seq<Op>)
    requires forall op :: op in ops ==> !op.PruneOlder?
    ensures Exec(x, ops).pruned == {}
  {
    if ops != [] {
      var front, op := ops[..|ops| - 1], ops[|ops| - 1];
      assert forall o :: o in front ==> o in ops;
      PrunedOnlyByPruning(x, front);
      assert op in ops;
    }
  }

  /** In every run without pruning each entry hash has at most one statement leaf, and the dedup
      cache has exactly the entry hashes of the statement leaves. */
  lemma {:induction false} ExactlyOnce(x: Setup, ops: seq<Op>)
    requires forall op :: op in ops ==> !op.PruneOlder?
    ensures var s := Exec(x, ops).w.store;
      && (forall i, j, k :: LeafOf(s.log, i, k) && LeafOf(s.log, j, k) ==> i == j)
      && (forall k :: k in s.statements <==> exists j :: LeafOf(s.log, j, k))
  {
    ExecKeepsOnce(x, ops);
    PrunedOnlyByPruning(x, ops);
    var s := Exec(x, ops).w.store;
    forall k | k in s.statements ensures exists j :: LeafOf(s.log, j, k) {
      assert LeafOf(s.log, s.statements[k].leafIndex, k);
    }
  }

  /** A step that leaves an entry hash in the cache leaves its entry alone. */
  lemma {:induction false} StepKeepsEntry(x: Setup, r: Run, op: Op, k: Digest)
    requires k in r.w.store.statements && k in Step(x, r, op).w.store.statements
    ensures Step(x, r, op).w.store.statements[k] == r.w.store.statements[k]
  {
    if IsSubmission(op) {
      var q := SubmissionOf(x, op);
      OnlyFreshChangesStore(x, r.w, q);
      if Fresh(x, r.w, q) {
        FreshIssues(x, r, q);
        LookupNone(x, r.w.store, q.bytes);
      }
      hide Register, Fresh, Committed, Lookup;
    } else {
      hide RootAt;
    }
  }

  /** Cached at every moment from the end of ops to the end of later. */
  ghost predicate CachedThroughout(x: Setup, ops: seq<Op>, later: seq<Op>, k: Digest) {
    forall n :: 0 <= n <= |later| ==> k in Exec(x, ops + later[..n]).w.store.statements
  }

  lemma {:induction false} EntryKept(x: Setup, ops: seq<Op>, later: seq<Op>, k: Digest)
    requires CachedThroughout(x, ops, later, k)
    ensures k in Exec(x, ops).w.store.statements && k in Exec(x, ops + later).w.store.statements
    ensures Exec(x, ops + later).w.store.statements[k] == Exec(x, ops).w.store.statements[k]
  {
    hide Exec, Step;
    assert ops + later[..0] == ops && later[..|later|] == later;
    if later != [] {
      var n := |later| - 1;
      assert forall m :: 0 <= m <= n ==> later[..n][..m] == later[..m];
      EntryKept(x, ops, later[..n], k);
      assert ops + later == ops + later[..n] + [later[n]];
      ExecOne(x, ops + later[..n], later[n]);
      StepKeepsEntry(x, Exec(x, ops + later[..n]), later[n], k);
    }
  }

  /** A resubmission of an accepted statement, or of another signature or unprotected header over the
      same signing act, returns the original receipt, index and size and changes nothing, after any
      operations that left its entry hash in the cache. */
  lemma {:induction false} ResubmissionReturnsOriginal(x: Setup, ops: seq<Op>, op: Op, later: seq<Op>, q: Submission)
    requires IsSubmission(op) && Fresh(x, Exec(x, ops).w, SubmissionOf(x, op))
    requires q.bytes == SubmissionOf(x, op).bytes || SameSigningAct(x, SubmissionOf(x, op).bytes, q.bytes)
    requires |q.bytes| <= MAX_STATEMENT_BYTES
    requires CachedThroughout(x, ops + [op], later, EntryHash(x, q.bytes))
    ensures var w0, w := Exec(x, ops).w, Exec(x, ops + [op] + later).w;
      var first := Register(x, w0, SubmissionOf(x, op)).1;
      var (w', again) := Register(x, w, q);
      && w' == w && first.Ok? && again.Ok?
      && again.value.receipt == first.value.receipt && again.value.entryHash == first.value.entryHash
      && again.value.leafIndex == first.value.leafIndex == |w0.store.log|
      && again.value.treeSize == first.value.treeSize == |w0.store.log| + 1
  {
    var r0, first := Exec(x, ops), SubmissionOf(x, op);
    ExecOne(x, ops, op);
    OnlyFreshChangesStore(x, r0.w, first);
    FreshLeaf(x, r0.w, first);
    FreshResult(x, r0.w, first);
    EntryKept(x, ops + [op], later, EntryHash(x, q.bytes));
    SameActSameHash(x, first.bytes, q.bytes);
    HitResult(x, Exec(x, ops + [op] + later).w, q);
    hide Exec, Register, Committed, EntryHash, DeclaredCheckpoint, CachedThroughout;
  }

  lemma SameActSameHash(x: Setup, b: Bytes, b': Bytes)
    requires b' == b || SameSigningAct(x, b, b')
    ensures EntryHash(x, b') == EntryHash(x, b) && DeclaredCheckpoint(x, b') == DeclaredCheckpoint(x, b)
  {
  }

  /** The answer to a resubmission is its cache entry. */
  lemma HitResult(x: Setup, w: Witness, q: Submission)
    requires |q.bytes| <= MAX_STATEMENT_BYTES && DeclaredCheckpoint(x, q.bytes).Ok?
    requires EntryHash(x, q.bytes) in w.store.statements
    ensures var (w', res) := Register(x, w, q); var c := w.store.statements[EntryHash(x, q.bytes)];
      && w' == w && res.Ok? && res.value.entryHash == EntryHash(x, q.bytes) && res.value.receipt == c.receipt
      && res.value.leafIndex == c.leafIndex && res.value.treeSize == c.treeSize
  {
    hide Admit, DeclaredCheckpoint;
  }

  /** The answer to a fresh submission is its cache entry. */
  lemma FreshResult(x: Setup, w: Witness, q: Submission)
    requires Fresh(x, w, q)
    ensures var (w', res) := Register(x, w, q);
      && res.Ok? && EntryHash(x, q.bytes) in w'.store.statements
      && var c := w'.store.statements[EntryHash(x, q.bytes)];
         res.value.receipt == c.receipt && res.value.leafIndex == c.leafIndex && res.value.treeSize == c.treeSize
         && res.value.entryHash == EntryHash(x, q.bytes)
  {
    hide RootAt, IssueReceipt, SignedHead, GateDeclared, GateContinuity;
  }
}
