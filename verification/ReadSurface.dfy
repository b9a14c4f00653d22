// The per-log read surface of POST /checkpoints: first record wins, every conflict is flagged.
module ReadSurface {
  import opened Basics
  import opened Authority
  import opened Checkpoints
  import opened WitnessState
  import opened WitnessRuns
  import HashChain

  predicate At(p: Pending, logId: string, size: int) {
    p.cp.logId == logId && p.cp.size == size
  }

  /** The j-th recorded checkpoint is the first at its position. */
  predicate IsFirst(recorded: seq<Pending>, j: nat, logId: string, size: int) {
    j < |recorded| && At(recorded[j], logId, size) && forall i :: 0 <= i < j ==> !At(recorded[i], logId, size)
  }

  ghost predicate HasRecorded(recorded: seq<Pending>, logId: string, size: int) {
    exists j :: 0 <= j < |recorded| && At(recorded[j], logId, size)
  }

  /** The event the j-th recorded checkpoint raises against the f-th, the first at its position. */
  predicate Raises(recorded: seq<Pending>, f: nat, j: nat, logId: string, e: Conflict) {
    && IsFirst(recorded, f, logId, e.size)
    && j < |recorded| && At(recorded[j], logId, e.size) && recorded[j].cp.root != recorded[f].cp.root
    && e == Conflict(e.size, EvidenceOf(RecordFor(recorded[f])), EvidenceOf(RecordFor(recorded[j])))
  }

  /** All that the record of a registered checkpoint shows. */
  predicate Shows(r: Record, p: Pending) {
    && r.root == p.cp.root && r.prevSize == p.cp.prevSize && r.prevRoot == p.cp.prevRoot
    && r.keyId == p.cp.keyId && r.timestamp == p.cp.timestamp && r.grade == p.cp.grade
    && r.entryHash == p.result.entryHash && r.scheme == p.result.scheme && r.leafIndex == p.result.leafIndex
    && r.treeSize == p.result.treeSize && r.receipt == p.result.receipt
    && r.continuityGrade == p.result.continuityGrade
  }

  /** The event that the j-th recorded checkpoint, of another root, raises against the f-th. */
  predicate Flags(recorded: seq<Pending>, f: nat, j: nat, logId: string, e: Conflict) {
    && IsFirst(recorded, f, logId, e.size)
    && j < |recorded| && At(recorded[j], logId, e.size) && recorded[j].cp.root != recorded[f].cp.root
    && e.first == Evidence(recorded[f].cp.root, recorded[f].result.entryHash, recorded[f].cp.timestamp)
    && e.conflicting == Evidence(recorded[j].cp.root, recorded[j].result.entryHash, recorded[j].cp.timestamp)
  }

  lemma RaisesFlags(recorded: seq<Pending>, f: nat, j: nat, logId: string, e: Conflict)
    ensures Raises(recorded, f, j, logId, e) <==> Flags(recorded, f, j, logId, e)
  {
  }

  lemma RecordShows(p: Pending)
    ensures Shows(RecordFor(p), p)
  {
  }

  function RecordFor(p: Pending): Record {
    RecordOf(p.cp, p.result)
  }

  ghost predicate SurfaceInv(s: Store, recorded: seq<Pending>) {
    && (forall logId, size :: (logId, size) in s.records ==> Holds(s, recorded, logId, size))
    && (forall j :: 0 <= j < |recorded| ==> (recorded[j].cp.logId, recorded[j].cp.size) in s.records)
    && (forall logId, e :: e in ConflictsOf(s, logId) <==> exists f: nat, j: nat :: Raises(recorded, f, j, logId, e))
  }

  lemma FirstIsUnique(recorded: seq<Pending>, f: nat, g: nat, logId: string, size: int)
    requires IsFirst(recorded, f, logId, size) && IsFirst(recorded, g, logId, size)
    ensures f == g
  {
  }

  lemma FirstBeforeRaised(recorded: seq<Pending>, f: nat, j: nat, logId: string, e: Conflict)
    requires Raises(recorded, f, j, logId, e)
    ensures f < j
  {
  }

  lemma FirstStays(recorded: seq<Pending>, p: Pending, j: nat, logId: string, size: int)
    requires j < |recorded|
    ensures IsFirst(recorded + [p], j, logId, size) <==> IsFirst(recorded, j, logId, size)
  {
    assert forall i :: 0 <= i <= j ==> (recorded + [p])[i] == recorded[i];
  }

  /** Recording one more checkpoint adds exactly its own event, if it raises one. */
  lemma RaisesExtends(recorded: seq<Pending>, p: Pending, logId: string, e: Conflict)
    ensures (exists f: nat, j: nat :: Raises(recorded + [p], f, j, logId, e)) <==>
      || (exists f: nat, j: nat :: Raises(recorded, f, j, logId, e))
      || (exists f: nat :: f < |recorded| && Raises(recorded + [p], f, |recorded|, logId, e))
  {
    var n, longer := |recorded|, recorded + [p];
    forall f: nat, j: nat | j < n ensures Raises(longer, f, j, logId, e) <==> Raises(recorded, f, j, logId, e) {
      assert longer[j] == recorded[j];
      if f < n {
        FirstStays(recorded, p, f, logId, e.size);
        assert longer[f] == recorded[f];
      } else {
        assert IsFirst(longer, f, logId, e.size) ==> !At(longer[j], logId, e.size);
      }
    }
    forall f: nat, j: nat | Raises(longer, f, j, logId, e) ensures f < j {
      FirstBeforeRaised(longer, f, j, logId, e);
    }
    assert forall f: nat, j: nat :: Raises(recorded, f, j, logId, e) ==> j < n;
  }

  lemma {:induction false} RecordKeepsSurface(s: Store, recorded: seq<Pending>, p: Pending)
    requires SurfaceInv(s, recorded)
    ensures SurfaceInv(PutRecord(s, p.cp.logId, p.cp.size, RecordFor(p)), recorded + [p])
  {
    var longer, n := recorded + [p], |recorded|;
    var logId, size := p.cp.logId, p.cp.size;
    var s' := PutRecord(s, logId, size, RecordFor(p));
    RecordsKept(s, recorded, p);
    forall l, e ensures e in ConflictsOf(s', l) <==> exists f: nat, j: nat :: Raises(longer, f, j, l, e) {
      RaisesExtends(recorded, p, l, e);
      NewEvent(s, recorded, p, l, e);
    }
  }

  ghost predicate Holds(s: Store, recorded: seq<Pending>, logId: string, size: int) {
    && (logId, size) in s.records
    && exists j: nat :: IsFirst(recorded, j, logId, size) && s.records[(logId, size)] == RecordFor(recorded[j])
  }

  lemma HoldsStays(s: Store, recorded: seq<Pending>, p: Pending, logId: string, size: int)
    requires Holds(s, recorded, logId, size)
    ensures Holds(s, recorded + [p], logId, size)
  {
    var j: nat :| IsFirst(recorded, j, logId, size) && s.records[(logId, size)] == RecordFor(recorded[j]);
    FirstStays(recorded, p, j, logId, size);
    assert (recorded + [p])[j] == recorded[j];
  }

  lemma NewHolds(s: Store, recorded: seq<Pending>, p: Pending)
    requires forall j :: 0 <= j < |recorded| ==> !At(recorded[j], p.cp.logId, p.cp.size)
    requires (p.cp.logId, p.cp.size) in s.records && s.records[(p.cp.logId, p.cp.size)] == RecordFor(p)
    ensures Holds(s, recorded + [p], p.cp.logId, p.cp.size)
  {
    var n, longer := |recorded|, recorded + [p];
    assert forall i :: 0 <= i < n ==> longer[i] == recorded[i];
    assert longer[n] == p && IsFirst(longer, n, p.cp.logId, p.cp.size);
  }

  lemma RecordsKept(s: Store, recorded: seq<Pending>, p: Pending)
    requires SurfaceInv(s, recorded)
    ensures var s', longer := PutRecord(s, p.cp.logId, p.cp.size, RecordFor(p)), recorded + [p];
      && (forall l, z :: (l, z) in s'.records ==> Holds(s', longer, l, z))
      && (forall j :: 0 <= j < |longer| ==> (longer[j].cp.logId, longer[j].cp.size) in s'.records)
  {
    var s', longer := PutRecord(s, p.cp.logId, p.cp.size, RecordFor(p)), recorded + [p];
    forall l, z | (l, z) in s'.records ensures Holds(s', longer, l, z) {
      if (l, z) in s.records {
        assert Holds(s, recorded, l, z) && s'.records[(l, z)] == s.records[(l, z)];
        HoldsStays(s', recorded, p, l, z);
      } else {
        NewHolds(s', recorded, p);
      }
    }
  }

  /** The event list grows by the new checkpoint's event and nothing else. */
  lemma NewEvent(s: Store, recorded: seq<Pending>, p: Pending, l: string, e: Conflict)
    requires SurfaceInv(s, recorded)
    ensures var s' := PutRecord(s, p.cp.logId, p.cp.size, RecordFor(p));
      e in ConflictsOf(s', l) <==>
        e in ConflictsOf(s, l) || (exists f: nat :: f < |recorded| && Raises(recorded + [p], f, |recorded|, l, e))
  {
    hide Raises, RecordFor;
    var key, longer := (p.cp.logId, p.cp.size), recorded + [p];
    if key in s.records {
      assert Holds(s, recorded, p.cp.logId, p.cp.size);
      var j: nat :| IsFirst(recorded, j, p.cp.logId, p.cp.size) && s.records[key] == RecordFor(recorded[j]);
      hide SurfaceInv, IsFirst;
      RaisedAtTaken(recorded, p, j, l, e);
      assert EvidenceOf(RecordFor(p)).root == p.cp.root && RecordFor(recorded[j]).root == recorded[j].cp.root by {
        RecordShowsRoot(p);
        RecordShowsRoot(recorded[j]);
      }
    } else {
      hide IsFirst;
      NotRaisedAtFree(recorded, p, l, e);
    }
  }

  lemma RecordShowsRoot(p: Pending)
    ensures RecordFor(p).root == p.cp.root
  {
  }

  /** A checkpoint for a taken position raises exactly its event against the first record there. */
  lemma RaisedAtTaken(recorded: seq<Pending>, p: Pending, j: nat, l: string, e: Conflict)
    requires IsFirst(recorded, j, p.cp.logId, p.cp.size)
    ensures (exists f: nat :: f < |recorded| && Raises(recorded + [p], f, |recorded|, l, e)) <==>
      && l == p.cp.logId && p.cp.root != recorded[j].cp.root
      && e == Conflict(p.cp.size, EvidenceOf(RecordFor(recorded[j])), EvidenceOf(RecordFor(p)))
  {
    hide RecordFor;
    var longer, n := recorded + [p], |recorded|;
    assert longer[n] == p && longer[j] == recorded[j];
    FirstStays(recorded, p, j, p.cp.logId, p.cp.size);
    forall f: nat | f < n && Raises(longer, f, n, l, e) ensures f == j {
      FirstIsUnique(longer, f, j, l, e.size);
    }
    var event := Conflict(p.cp.size, EvidenceOf(RecordFor(recorded[j])), EvidenceOf(RecordFor(p)));
    assert p.cp.root != recorded[j].cp.root ==> Raises(longer, j, n, p.cp.logId, event);
  }

  /** A checkpoint for a free position raises none. */
  lemma NotRaisedAtFree(recorded: seq<Pending>, p: Pending, l: string, e: Conflict)
    requires forall j :: 0 <= j < |recorded| ==> !At(recorded[j], p.cp.logId, p.cp.size)
    ensures forall f: nat :: f < |recorded| ==> !Raises(recorded + [p], f, |recorded|, l, e)
  {
    hide RecordFor;
    var n, longer := |recorded|, recorded + [p];
    assert longer[n] == p;
    forall f: nat | f < n ensures !Raises(longer, f, n, l, e) {
      assert longer[f] == recorded[f];
    }
  }

  lemma StepKeepsSurface(x: Setup, r: Run, op: Op)
    requires SurfaceInv(r.w.store, r.recorded)
    ensures SurfaceInv(Step(x, r, op).w.store, Step(x, r, op).recorded)
  {
    hide HashChain.RootAt;
    match op
    case Submit(_, _, _) => SubmittedKeepsReadSurface(x, r, SubmissionOf(x, op));
    case SubmitCheckpoint(_, _, _) => SubmittedKeepsReadSurface(x, r, SubmissionOf(x, op));
    case FinishCheckpoint(i) =>
      if i < |r.pending| {
        RecordKeepsSurface(r.w.store, r.recorded, r.pending[i]);
      }
    case _ => SurfaceUnchanged(r.w.store, Step(x, r, op).w.store, r.recorded);
  }

  lemma SubmittedKeepsReadSurface(x: Setup, r: Run, q: Submission)
    requires SurfaceInv(r.w.store, r.recorded)
    ensures var r' := Submitted(x, r, q); SurfaceInv(r'.w.store, r'.recorded)
  {
    OnlyFreshChangesStore(x, r.w, q);
    if Fresh(x, r.w, q) {
      AppendKeepsReadSurface(x, r.w, q);
    }
    SurfaceUnchanged(r.w.store, Submitted(x, r, q).w.store, r.recorded);
  }

  lemma SurfaceUnchanged(s: Store, s': Store, recorded: seq<Pending>)
    requires SurfaceInv(s, recorded) && s'.records == s.records && s'.conflicts == s.conflicts
    ensures SurfaceInv(s', recorded)
  {
    forall l, z | (l, z) in s'.records ensures Holds(s', recorded, l, z) {
      assert Holds(s, recorded, l, z);
    }
    assert forall l :: ConflictsOf(s', l) == ConflictsOf(s, l);
  }

  /** In every run: a position is on the read surface exactly when a checkpoint has been recorded
      for it, and then it shows the first one; the flagged events of a log are exactly the recorded
      checkpoints whose root differs from the first at their position, each naming that first. */
  lemma {:induction false} ReadSurfaceIsExact(x: Setup, ops: seq<Op>)
    ensures var s, recorded := Exec(x, ops).w.store, Exec(x, ops).recorded;
      && (forall logId, size :: (logId, size) in s.records <==> HasRecorded(recorded, logId, size))
      && (forall j: nat, logId, size :: IsFirst(recorded, j, logId, size) ==>
        (logId, size) in s.records && Shows(s.records[(logId, size)], recorded[j]))
      && (forall logId, e :: e in ConflictsOf(s, logId) <==> exists f: nat, j: nat :: Flags(recorded, f, j, logId, e))
  {
    ExecKeepsSurface(x, ops);
    hide Exec, Flags, Raises, RecordFor, Shows;
    var s, recorded := Exec(x, ops).w.store, Exec(x, ops).recorded;
    forall logId, size | (logId, size) in s.records ensures HasRecorded(recorded, logId, size) {
      assert Holds(s, recorded, logId, size);
    }
    forall j: nat, logId, size | IsFirst(recorded, j, logId, size)
      ensures (logId, size) in s.records && Shows(s.records[(logId, size)], recorded[j])
    {
      assert Holds(s, recorded, logId, size);
      var f: nat :| IsFirst(recorded, f, logId, size) && s.records[(logId, size)] == RecordFor(recorded[f]);
      FirstIsUnique(recorded, f, j, logId, size);
      RecordShows(recorded[j]);
    }
    forall f: nat, j: nat, logId, e ensures Raises(recorded, f, j, logId, e) <==> Flags(recorded, f, j, logId, e) {
      RaisesFlags(recorded, f, j, logId, e);
    }
  }

  lemma {:induction false} ExecKeepsSurface(x: Setup, ops: seq<Op>)
    ensures SurfaceInv(Exec(x, ops).w.store, Exec(x, ops).recorded)
  {
    if ops != [] {
      hide SurfaceInv, Step;
      ExecKeepsSurface(x, ops[..|ops| - 1]);
      StepKeepsSurface(x, Exec(x, ops[..|ops| - 1]), ops[|ops| - 1]);
    } else {
      assert forall logId: string :: ConflictsOf(EMPTY_STORE, logId) == [];
    }
  }
}
