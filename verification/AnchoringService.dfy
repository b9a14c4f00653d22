// InMemoryLogStore and AnchorerService as objects that update their fields in place. Every method
// is proved to move the whole state exactly as its function in WitnessState says.
module AnchoringService {
  import opened Basics
  import opened MerkleTree
  import opened InclusionProof
  import opened Authority
  import opened HashChain
  import opened Checkpoints
  import opened WitnessState

  function Without(m: map<Digest, Cached>, gone: set<Digest>): map<Digest, Cached> {
    map k | k in m && k !in gone :: m[k]
  }

  /** One more for one log, and no other. */
  function CountedOnce(counts: Counts, logId: string): (more: Counts)
    ensures logId in more && more[logId] == 1 + if logId in counts then counts[logId] else 0
    ensures forall other :: other != logId ==> (other in more <==> other in counts)
    ensures forall other :: other != logId && other in counts ==> more[other] == counts[other]
  {
    counts[logId := 1 + if logId in counts then counts[logId] else 0]
  }

  lemma WithoutNone(m: map<Digest, Cached>)
    ensures Without(m, {}) == m
  {
  }

  lemma WithoutOneMore(m: map<Digest, Cached>, gone: set<Digest>, key: Digest)
    ensures Without(m, gone) - {key} == Without(m, gone + {key})
  {
  }

  lemma PruneIsWithout(s: Store, cutoff: int, stale: set<Digest>)
    requires stale <= s.statements.Keys && forall k :: k in stale <==> Stale(s, k, cutoff)
    ensures Prune(s, cutoff) == s.(statements := Without(s.statements, stale))
    ensures s.statements.Keys - Without(s.statements, stale).Keys == stale
  {
    assert Prune(s, cutoff).statements == Without(s.statements, stale);
  }

  class InMemoryLogStore {
    var log: seq<Entry>
    var statements: map<Digest, Cached>
    var tips: map<string, Tip>
    var records: map<(string, int), Record>
    var conflicts: map<string, seq<Conflict>>
    var head: Option<TreeHead>
    var history: map<nat, TreeHead>

    function View(): Store
      reads this
    {
      Store(log, statements, tips, records, conflicts, head, history)
    }

    constructor ()
      ensures View() == EMPTY_STORE
    {
      log, statements, tips, records, conflicts, head, history := [], map[], map[], map[], map[], None, map[];
    }

    method AppendEntry(e: Entry)
      modifies this`log
      ensures log == old(log) + [e]
    {
      log := log + [e];
    }

    method PutStatement(key: Digest, c: Cached)
      modifies this`statements
      ensures statements == old(statements)[key := c]
    {
      statements := statements[key := c];
    }

    method PutCheckpointWitness(logId: string, tip: Tip)
      modifies this`tips
      ensures tips == old(tips)[logId := tip]
    {
      tips := tips[logId := tip];
    }

    /** Returns whether the record conflicts with the one that holds its position. */
    method PutCheckpointRecord(logId: string, size: int, r: Record) returns (conflict: bool)
      modifies this`records, this`conflicts
      ensures View() == PutRecord(old(View()), logId, size, r)
      ensures conflict <==> (logId, size) in old(records) && old(records)[(logId, size)].root != r.root
    {
      var key := (logId, size);
      if key !in records {
        records := records[key := r];
        return false;
      }
      var existing := records[key];
      if existing.root == r.root {
        return false;
      }
      var events := if logId in conflicts then conflicts[logId] else [];
      conflicts := conflicts[logId := events + [Conflict(size, EvidenceOf(existing), EvidenceOf(r))]];
      return true;
    }

    /** The record at a log's largest position, whatever conflicts are flagged below it. */
    method GetLastCheckpointRecord(logId: string) returns (last: Option<(int, Record)>)
      ensures last.None? <==> forall size :: (logId, size) !in records
      ensures last.Some? ==> (logId, last.value.0) in records && last.value.1 == records[(logId, last.value.0)]
      ensures last.Some? ==> forall size :: (logId, size) in records ==> size <= last.value.0
    {
      last := None;
      var rest := records.Keys;
      while rest != {}
        invariant rest <= records.Keys
        invariant last.None? ==> forall size :: (logId, size) in records.Keys - rest ==> false
        invariant last.Some? ==> (logId, last.value.0) in records && last.value.1 == records[(logId, last.value.0)]
        invariant last.Some? ==> forall size :: (logId, size) in records.Keys - rest ==> size <= last.value.0
        decreases rest
      {
        var key :| key in rest;
        rest := rest - {key};
        if key.0 == logId && (last.None? || key.1 > last.value.0) {
          last := Some((key.1, records[key]));
        }
      }
    }

    method PutSth(h: TreeHead)
      modifies this`head, this`history
      ensures View() == PutHead(old(View()), h)
    {
      if h.treeSize !in history {
        history := history[h.treeSize := h];
      }
      if head.Some? && !Precedes(head.value, h) {
        return;
      }
      head := Some(h);
    }

    /** The stale keys are collected first and deleted afterwards. */
    method PruneStatementsOlderThan(cutoff: int) returns (removed: nat)
      requires forall k :: k in statements ==> statements[k].leafIndex < |log|
      modifies this`statements
      ensures View() == Prune(old(View()), cutoff)
      ensures removed == |old(statements).Keys - statements.Keys|
    {
      var stale := StaleKeys(cutoff);
      removed := |stale|;
      PruneIsWithout(View(), cutoff, stale);
      DeleteStatements(stale);
    }

    method DeleteStatements(stale: set<Digest>)
      requires stale <= statements.Keys
      modifies this`statements
      ensures statements == Without(old(statements), stale)
    {
      hide Without;
      var rest := stale;
      ghost var gone: set<Digest>, before := {}, statements;
      WithoutNone(before);
      while rest != {}
        invariant gone + rest == stale
        invariant statements == Without(before, gone)
        decreases rest
      {
        var key :| key in rest;
        WithoutOneMore(before, gone, key);
        gone := gone + {key};
        rest := rest - {key};
        statements := statements - {key};
      }
    }

    method StaleKeys(cutoff: int) returns (stale: set<Digest>)
      requires forall k :: k in statements ==> statements[k].leafIndex < |log|
      ensures forall k :: k in stale <==> Stale(View(), k, cutoff)
      ensures stale <= statements.Keys
    {
      var rest := statements.Keys;
      stale := {};
      while rest != {}
        invariant rest <= statements.Keys && stale <= statements.Keys - rest
        invariant forall k :: k in statements.Keys - rest ==> (k in stale <==> Stale(View(), k, cutoff))
        decreases rest
      {
        var key :| key in rest;
        rest := rest - {key};
        if log[statements[key].leafIndex].loggedAt < cutoff {
          stale := stale + {key};
        }
      }
    }
  }

  class AnchorerService {
    const x: Setup
    const store: InMemoryLogStore
    var wouldRefuse: Counts

    function View(): Witness
      reads this, store
    {
      Witness(store.View(), wouldRefuse)
    }

    constructor (x: Setup)
      ensures this.x == x && fresh(store) && View() == EMPTY_WITNESS
    {
      this.x := x;
      store := new InMemoryLogStore();
      wouldRefuse := map[];
    }

    /** _append_log. */
    method AppendLog(kind: Kind, payload: Bytes, loggedAt: int) returns (e: Entry)
      modifies store`log
      ensures store.log == Appended(x.keys, old(store.log), kind, payload, loggedAt)
      ensures e == store.log[|store.log| - 1]
    {
      var logIndex := |store.log|;
      var payloadHash := x.keys.sha256(payload);
      var prev := None;
      if logIndex > 0 {
        prev := Some(EntryHead(x.keys, store.log[logIndex - 1]));
      }
      var signature := x.keys.attest(HeadMessage(HeadPayload(logIndex, payloadHash, prev)));
      e := Entry(logIndex, loggedAt, kind, payloadHash, signature, prev);
      store.AppendEntry(e);
    }

    /** anchor. */
    method AnchorRoot(payload: Bytes, attestedAt: int) returns (e: Entry)
      modifies store`log
      ensures View() == Anchor(x, old(View()), payload, attestedAt)
      ensures e == store.log[|store.log| - 1]
    {
      e := AppendLog(RootEntry, payload, attestedAt);
    }

    /** _sign_and_persist_sth. */
    method SignAndPersistSth(headAt: int) returns (h: TreeHead)
      modifies store`head, store`history
      ensures View() == RefreshHead(x, old(View()), headAt)
      ensures h == SignedHead(x.keys, |store.log|, RootAt(x.keys, store.log, |store.log|), headAt)
    {
      var treeSize := |store.log|;
      var rootHash := TreeRoot(x.keys.tree, Leaves(x.keys, store.log)[..treeSize]);
      h := SignedHead(x.keys, treeSize, rootHash, headAt);
      store.PutSth(h);
    }

    /** get_sth: a stored head that covers the log, otherwise a new one of the present time. */
    method GetSth(headAt: int) returns (h: TreeHead)
      modifies store`head, store`history
      ensures (View(), h) == ReadHead(x, old(View()), headAt)
      ensures View() == old(View()) || (h.treeSize == |store.log| && h.timestamp == headAt)
    {
      if store.head.Some? && store.head.value.treeSize >= |store.log| {
        return store.head.value;
      }
      h := SignAndPersistSth(headAt);
    }

    /** _refuse_or_count, under the policies that reach it. */
    method ApplyPolicy(logId: string, tip: Tip) returns (refused: Option<Refusal>)
      modifies this`wouldRefuse
      ensures (wouldRefuse, refused) == RefuseOrCount(x, old(wouldRefuse), logId, tip)
      ensures wouldRefuse == if x.policy == Warn then CountedOnce(old(wouldRefuse), logId) else old(wouldRefuse)
    {
      if x.policy == Off {
        return None;
      }
      if x.policy == Enforce {
        return Some(ConsistencyProofRequired(tip.size, tip.root));
      }
      var count := (if logId in wouldRefuse then wouldRefuse[logId] else 0) + 1;
      wouldRefuse := wouldRefuse[logId := count];
      return None;
    }

    /** _check_checkpoint_consistency: the first checkpoint of a log passes; under enforce no other
        does, and otherwise those that start where the tip ends. Only warn counts. */
    method CheckCheckpointConsistency(m: MmrCheckpoint) returns (r: Result<Status, Refusal>)
      modifies this`wouldRefuse
      ensures (wouldRefuse, r) == CheckDeclared(x, old(View()), m)
      ensures r == Ok(StatusFirstSeen) <==> m.logId !in store.tips
      ensures r == Ok(StatusWitnessed) <==>
        m.logId in store.tips && m.prevSize == store.tips[m.logId].size && x.policy != Enforce
      ensures r.Err? && r.error.ConsistencyProofRequired? <==> m.logId in store.tips && x.policy == Enforce
      ensures wouldRefuse == (
        if m.logId in store.tips && x.policy == Warn then CountedOnce(old(wouldRefuse), m.logId) else old(wouldRefuse))
    {
      if m.logId !in store.tips {
        return Ok(StatusFirstSeen);
      }
      var prev := store.tips[m.logId];
      var refused := ApplyPolicy(m.logId, prev);
      if refused.Some? {
        return Err(refused.value);
      }
      if m.prevSize != prev.size || m.size <= prev.size {
        return Err(Rollback);
      }
      return Ok(StatusWitnessed);
    }

    /** _check_checkpoint_continuity: first-seen without a tip, witnessed exactly with the tip's size and
        root and an accepted proof, registered without a proof unless enforce asks a native log for
        one. A refusal tells the tip, and only warn counts. */
    method CheckCheckpointContinuity(cp: Checkpoint) returns (r: Result<Grade, Refusal>)
      modifies this`wouldRefuse
      ensures (wouldRefuse, r) == CheckContinuity(x, store.tips, old(wouldRefuse), cp)
      ensures r == Ok(FirstSeen) <==> cp.logId !in store.tips
      ensures r == Ok(Witnessed) <==>
        && cp.logId in store.tips && ProofOf(cp).Some?
        && cp.prevSize == store.tips[cp.logId].size && cp.prevRoot == store.tips[cp.logId].root
        && x.verifyConsistency(store.tips[cp.logId].root, store.tips[cp.logId].size, cp.root, cp.size,
                               ProofOf(cp).value)
      ensures r == Ok(Registered) <==>
        cp.logId in store.tips && ProofOf(cp).None? && !(IsNative(cp) && x.policy == Enforce)
      ensures r.Err? ==> r.error.acceptedSize == store.tips[cp.logId].size
      ensures r.Err? ==> r.error.acceptedRoot == store.tips[cp.logId].root
      ensures wouldRefuse == (
        if cp.logId in store.tips && ProofOf(cp).None? && IsNative(cp) && x.policy == Warn
        then CountedOnce(old(wouldRefuse), cp.logId) else old(wouldRefuse))
    {
      if cp.logId !in store.tips {
        return Ok(FirstSeen);
      }
      var prev := store.tips[cp.logId];
      var proof := ProofOf(cp);
      if proof.None? {
        if IsNative(cp) {
          var refused := ApplyPolicy(cp.logId, prev);
          if refused.Some? {
            return Err(refused.value);
          }
        }
        return Ok(Registered);
      }
      if cp.prevSize != prev.size || cp.prevRoot != prev.root {
        return Err(ContinuityMismatch(prev.size, prev.root));
      }
      if !x.verifyConsistency(prev.root, prev.size, cp.root, cp.size, proof.value) {
        return Err(ContinuityMismatch(prev.size, prev.root));
      }
      return Ok(Witnessed);
    }

    /** register_signed_statement_full. */
    method RegisterSignedStatement(q: Submission) returns (r: Result<Registration, Refusal>)
      modifies this`wouldRefuse, store
      ensures (View(), r) == Register(x, old(View()), q)
    {
      if |q.bytes| > MAX_STATEMENT_BYTES {
        return Err(StatementTooLarge);
      }
      var (preimage, scheme) := Preimage(x, q.bytes);
      var entryHash, legacyHash := x.keys.sha256(preimage), x.keys.sha256(q.bytes);
      var declared := DeclaredCheckpoint(x, q.bytes);
      if declared.Err? {
        return Err(NotACheckpoint(declared.error));
      }
      if entryHash in store.statements {
        return Ok(Reissue(store.View(), store.statements[entryHash], entryHash, scheme, declared.value, q.cp));
      }
      if legacyHash in store.statements {
        return Ok(Reissue(store.View(), store.statements[legacyHash], legacyHash, Legacy, declared.value, q.cp));
      }
      r := AdmitStatement(q, declared.value);
    }

    method AdmitStatement(q: Submission, m: Option<MmrCheckpoint>) returns (r: Result<Registration, Refusal>)
      modifies this`wouldRefuse, store
      ensures (View(), r) == Admit(x, old(View()), q, m)
    {
      var status, continuity := None, None;
      if m.Some? {
        var checked := CheckCheckpointConsistency(m.value);
        if checked.Err? {
          return Err(checked.error);
        }
        status := Some((m.value, checked.value));
      }
      if q.cp.Some? {
        var checked := CheckCheckpointContinuity(q.cp.value);
        if checked.Err? {
          return Err(checked.error);
        }
        continuity := Some(checked.value);
      }
      var cached := CommitStatement(q, HeaderFor(q, continuity));
      if m.Some? {
        store.PutCheckpointWitness(m.value.logId, TipOfDeclared(m.value));
      }
      if q.cp.Some? && (continuity == Some(FirstSeen) || continuity == Some(Witnessed)) {
        store.PutCheckpointWitness(q.cp.value.logId, TipOf(q.cp.value));
      }
      return Ok(Registration(cached.receipt, EntryHash(x, q.bytes), cached.leafIndex, cached.treeSize,
                             Preimage(x, q.bytes).1, status, continuity));
    }

    /** Append, prove, sign the receipt, cache it and advance the signed head. */
    method CommitStatement(q: Submission, header: ReceiptHeader) returns (cached: Cached)
      modifies store
      ensures store.View() == AppendStatement(x, old(store.View()), q, header)
      ensures EntryHash(x, q.bytes) in store.statements && cached == store.statements[EntryHash(x, q.bytes)]
    {
      var entry := AppendLog(ScittStatement, Preimage(x, q.bytes).0, q.loggedAt);
      var leafIndex, leaves := |store.log| - 1, Leaves(x.keys, store.log);
      var treeSize := |leaves|;
      var auditPath := AuditPath(x.keys.tree, leafIndex, leaves);
      var root := TreeRoot(x.keys.tree, leaves);
      var receipt := Receipt(treeSize, leafIndex, auditPath, header, x.keys.attest(ReceiptMessage(header, root)));
      cached := Cached(receipt, leafIndex, treeSize);
      store.PutStatement(EntryHash(x, q.bytes), cached);
      var _ := SignAndPersistSth(q.headAt);
    }

    /** witness_checkpoint run without anything in between its two critical sections. */
    method WitnessCheckpoint(cp: Checkpoint, loggedAt: int, headAt: int) returns (r: Result<Registration, Refusal>)
      modifies this`wouldRefuse, store
      ensures var (w, res) := RegisterCheckpoint(x, old(View()), cp, loggedAt, headAt);
        r == res && View() == if res.Ok? then RecordCheckpoint(w, cp, res.value) else w
    {
      r := RegisterSignedStatement(FromCheckpoint(x, cp, loggedAt, headAt));
      if r.Ok? {
        var _ := store.PutCheckpointRecord(cp.logId, cp.size, RecordOf(cp, r.value));
      }
    }

    /** get_checkpoint_readback. */
    method GetCheckpointReadback(logId: string) returns (r: Option<(int, Record, seq<Conflict>)>)
      ensures r.None? <==> forall size :: (logId, size) !in store.records
      ensures r.Some? ==>
        && (logId, r.value.0) in store.records && r.value.1 == store.records[(logId, r.value.0)]
        && (forall size :: (logId, size) in store.records ==> size <= r.value.0)
        && r.value.2 == ConflictsOf(store.View(), logId)
    {
      var last := store.GetLastCheckpointRecord(logId);
      if last.None? {
        return None;
      }
      return Some((last.value.0, last.value.1, if logId in store.conflicts then store.conflicts[logId] else []));
    }

    /** prune_expired_statements: nothing is touched unless a retention period is configured. */
    method PruneExpiredStatements(now: int, retention: Option<int>) returns (removed: nat)
      requires forall k :: k in store.statements ==> store.statements[k].leafIndex < |store.log|
      modifies store`statements
      ensures store.View()
        == if retention.None? then old(store.View()) else Prune(old(store.View()), now - retention.value)
      ensures removed == |old(store.statements).Keys - store.statements.Keys|
    {
      if retention.None? {
        return 0;
      }
      removed := store.PruneStatementsOlderThan(now - retention.value);
    }
  }
}
