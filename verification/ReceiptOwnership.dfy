// Between N instances over one database: whose row a receipt is for.
module ReceiptOwnership {
  import opened Basics
  import opened Authority
  import opened HashChain
  import opened MultiInstance
  import InclusionProof

  /** The row an instance wrote for a job records that job. */
  predicate RecordsJob(a: Keys, rows: map<nat, Entry>, index: nat, job: Job) {
    && index in rows && rows[index].logIndex == index && rows[index].kind == job.kind
    && rows[index].payloadHash == a.sha256(job.payload) && rows[index].loggedAt == job.loggedAt
  }

  predicate NoReceiptFor(issued: seq<Issued>, index: nat) {
    forall i :: i in issued ==> i.receipt.index != index
  }

  /** An instance that has inserted still owes the receipt of the row it wrote. */
  predicate OwnsRow(s: State, p: nat, i: Instance) {
    i.Inserted? ==> Write(p, i.job, i.index) in s.writes && NoReceiptFor(s.issued, i.index)
  }

  ghost predicate WritesInv(a: Keys, s: State) {
    && (forall w :: w in s.writes ==> RecordsJob(a, s.rows, w.index, w.job))
    && (forall i, j :: 0 <= i < j < |s.writes| ==> s.writes[i].index != s.writes[j].index)
    && (forall k :: k in s.rows ==> exists w :: w in s.writes && w.index == k)
  }

  ghost predicate OwnersInv(s: State) {
    && (forall p :: OwnsRow(s, p, InstanceOf(s, p)))
    && (forall i :: i in s.issued ==> Write(i.p, i.job, i.receipt.index) in s.writes)
    && (forall i, j :: 0 <= i < j < |s.issued| ==> s.issued[i].receipt.index != s.issued[j].receipt.index)
  }

  lemma InsertKeepsWrites(a: Keys, s: State, p: nat)
    requires WritesInv(a, s)
    ensures WritesInv(a, Next(a, s, Insert(p)))
  {
    hide Table, WritesInv;
    var at, t := InstanceOf(s, p), Next(a, s, Insert(p));
    if at.HeadRead? && at.count !in s.rows {
      OneMoreWrite(a, s, t, Write(p, at.job, at.count));
    } else {
      SameWrites(a, s, t);
    }
  }

  lemma OneMoreWrite(a: Keys, s: State, t: State, w: Write)
    requires WritesInv(a, s) && w.index !in s.rows && t.writes == s.writes + [w]
    requires w.index in t.rows && t.rows == s.rows[w.index := t.rows[w.index]]
    requires RecordsJob(a, t.rows, w.index, w.job)
    ensures WritesInv(a, t)
  {
    hide RecordsJob;
    assert w in t.writes;
    forall v | v in t.writes ensures RecordsJob(a, t.rows, v.index, v.job) {
      if v in s.writes {
        RowStays(a, s.rows, t.rows, v, w.index);
      }
    }
    forall k | k in t.rows ensures exists v :: v in t.writes && v.index == k {
      if k != w.index {
        var v :| v in s.writes && v.index == k;
        assert v in t.writes;
      }
    }
    forall i, j | 0 <= i < j < |t.writes| ensures t.writes[i].index != t.writes[j].index {
      assert s.writes[i] in s.writes;
      WrittenRow(a, s.rows, s.writes[i]);
    }
  }

  lemma RowStays(a: Keys, rows: map<nat, Entry>, more: map<nat, Entry>, v: Write, index: nat)
    requires RecordsJob(a, rows, v.index, v.job)
    requires index !in rows && index in more && more == rows[index := more[index]]
    ensures RecordsJob(a, more, v.index, v.job)
  {
  }

  lemma WrittenRow(a: Keys, rows: map<nat, Entry>, v: Write)
    requires RecordsJob(a, rows, v.index, v.job)
    ensures v.index in rows
  {
  }

  lemma InsertKeepsOwners(a: Keys, s: State, p: nat)
    requires WritesInv(a, s) && OwnersInv(s)
    ensures OwnersInv(Next(a, s, Insert(p)))
  {
    hide Table;
    var at, t := InstanceOf(s, p), Next(a, s, Insert(p));
    assert forall q :: q != p ==> InstanceOf(t, q) == InstanceOf(s, q);
    assert forall w :: w in s.writes ==> w in t.writes;
    forall q ensures OwnsRow(t, q, InstanceOf(t, q)) {
      assert OwnsRow(s, q, InstanceOf(s, q));
      if q == p && InstanceOf(t, p).Inserted? {
        assert forall i :: i in s.issued ==> i.receipt.index in s.rows;
      }
    }
  }

  /** One row was written once, so by one instance. */
  lemma OneWriter(a: Keys, s: State, v: Write, w: Write)
    requires WritesInv(a, s) && v in s.writes && w in s.writes && v.index == w.index
    ensures v == w
  {
  }

  lemma IssueKeepsOwners(a: Keys, s: State, p: nat)
    requires WritesInv(a, s) && OwnersInv(s)
    ensures OwnersInv(Next(a, s, Issue(p)))
  {
    hide Table;
    var at, t := InstanceOf(s, p), Next(a, s, Issue(p));
    assert OwnsRow(s, p, at);
    if at.Inserted? && at.index < |Table(s.rows)| {
      assert t.issued == s.issued + [Issued(p, at.job, ReceiptFor(a, Table(s.rows), at.index))];
      forall q ensures OwnsRow(t, q, InstanceOf(t, q)) {
        assert OwnsRow(s, q, InstanceOf(s, q));
        if q != p && InstanceOf(t, q).Inserted? && InstanceOf(t, q).index == at.index {
          OneWriter(a, s, Write(p, at.job, at.index), Write(q, InstanceOf(t, q).job, at.index));
        }
      }
      forall i, j | 0 <= i < j < |t.issued| ensures t.issued[i].receipt.index != t.issued[j].receipt.index {
        assert s.issued[i] in s.issued;
      }
    }
  }

  lemma OtherStepQuiet(a: Keys, s: State, step: Step)
    requires !step.Insert? && !step.Issue?
    ensures var t := Next(a, s, step);
      && t.rows == s.rows && t.writes == s.writes && t.issued == s.issued
      && forall q :: InstanceOf(t, q).Inserted? ==> InstanceOf(t, q) == InstanceOf(s, q)
  {
    hide Table, RootSeen;
  }

  lemma QuietKeepsOwners(s: State, t: State)
    requires OwnersInv(s) && t.writes == s.writes && t.issued == s.issued
    requires forall q :: InstanceOf(t, q).Inserted? ==> InstanceOf(t, q) == InstanceOf(s, q)
    ensures OwnersInv(t)
  {
    forall q ensures OwnsRow(t, q, InstanceOf(t, q)) {
      assert OwnsRow(s, q, InstanceOf(s, q));
    }
  }

  lemma SameWrites(a: Keys, s: State, t: State)
    requires WritesInv(a, s) && t.rows == s.rows && t.writes == s.writes
    ensures WritesInv(a, t)
  {
  }

  lemma IssueKeepsRows(a: Keys, s: State, p: nat)
    ensures var t := Next(a, s, Issue(p));
      t.rows == s.rows && t.writes == s.writes
  {
    hide Table;
  }

  lemma {:induction false} NextKeepsOwners(a: Keys, s: State, step: Step)
    requires WritesInv(a, s) && OwnersInv(s)
    ensures WritesInv(a, Next(a, s, step)) && OwnersInv(Next(a, s, step))
  {
    hide Next, WritesInv, OwnersInv;
    match step
    case Insert(p) =>
      InsertKeepsWrites(a, s, p);
      InsertKeepsOwners(a, s, p);
    case Issue(p) =>
      IssueKeepsRows(a, s, p);
      SameWrites(a, s, Next(a, s, step));
      IssueKeepsOwners(a, s, p);
    case _ =>
      OtherStepQuiet(a, s, step);
      SameWrites(a, s, Next(a, s, step));
      QuietKeepsOwners(s, Next(a, s, step));
  }

  lemma {:induction false} RunKeepsOwners(a: Keys, steps: seq<Step>)
    ensures WritesInv(a, Run(a, steps)) && OwnersInv(Run(a, steps))
  {
    if steps != [] {
      hide WritesInv, OwnersInv, Next;
      RunKeepsOwners(a, steps[..|steps| - 1]);
      NextKeepsOwners(a, Run(a, steps[..|steps| - 1]), steps[|steps| - 1]);
    }
  }

  // ---------------------------------------------------------------- jobs are those that were asked for

  predicate WorksOn(i: Instance, job: Job) {
    (i.Counted? || i.HeadRead? || i.Inserted?) && i.job == job
  }

  predicate Asked(steps: seq<Step>, p: nat, job: Job) {
    CountRows(p, job) in steps
  }

  ghost predicate AskedInv(steps: seq<Step>, s: State) {
    && (forall p, job :: WorksOn(InstanceOf(s, p), job) ==> Asked(steps, p, job))
    && (forall w :: w in s.writes ==> Asked(steps, w.p, w.job))
  }

  lemma NextJobs(a: Keys, s: State, step: Step)
    ensures var t := Next(a, s, step);
      && (forall p, job :: WorksOn(InstanceOf(t, p), job) ==>
        WorksOn(InstanceOf(s, p), job) || step == CountRows(p, job))
      && (forall w :: w in t.writes ==> w in s.writes || WorksOn(InstanceOf(s, w.p), w.job))
  {
    hide Table, RootSeen;
  }

  lemma {:induction false} RunKeepsAsked(a: Keys, steps: seq<Step>)
    ensures AskedInv(steps, Run(a, steps))
  {
    if steps != [] {
      hide Next;
      var front, step := steps[..|steps| - 1], steps[|steps| - 1];
      RunKeepsAsked(a, front);
      NextJobs(a, Run(a, front), step);
      AskedStays(front, step);
      assert front + [step] == steps;
    }
  }

  lemma AskedStays(front: seq<Step>, step: Step)
    ensures forall p, job :: Asked(front, p, job) ==> Asked(front + [step], p, job)
    ensures forall p, job :: step == CountRows(p, job) ==> Asked(front + [step], p, job)
  {
  }

  // ---------------------------------------------------------------- what every run guarantees

  /** In every run: the receipt an instance issues for a job it was asked to append has the index of the
      row its own insert wrote for that job, that row records the job's kind, payload hash and time,
      and no two receipts share an index. Every row was written once, for one job. */
  lemma {:induction false} ReceiptsAreForOwnRows(a: Keys, steps: seq<Step>)
    ensures var s := Run(a, steps);
      && (forall i :: i in s.issued ==>
        && CountRows(i.p, i.job) in steps && Write(i.p, i.job, i.receipt.index) in s.writes
        && RecordsJob(a, s.rows, i.receipt.index, i.job))
      && (forall i, j :: 0 <= i < j < |s.issued| ==> s.issued[i].receipt.index != s.issued[j].receipt.index)
      && (forall i, j :: 0 <= i < j < |s.writes| ==> s.writes[i].index != s.writes[j].index)
      && (forall w :: w in s.writes ==> CountRows(w.p, w.job) in steps && RecordsJob(a, s.rows, w.index, w.job))
      && (forall k :: k in s.rows ==> exists w :: w in s.writes && w.index == k)
  {
    RunKeepsOwners(a, steps);
    RunKeepsAsked(a, steps);
    hide Run;
    assert forall w :: w in Run(a, steps).writes ==> Asked(steps, w.p, w.job);
  }

  /** And its proof leads from the leaf hash of exactly that job to the tree hash of the log. */
  lemma {:induction false} ReceiptsProveOwnJobs(a: Keys, steps: seq<Step>, i: Issued)
    requires Sound(a) && i in Run(a, steps).issued
    ensures var rows, r := Run(a, steps).rows, i.receipt;
      && r.index in rows && r.index < r.treeSize <= |Table(rows)|
      && r.rootHash == RootAt(a, Table(rows), r.treeSize)
      && var leaf := a.leafHash(
           if i.job.kind == ScittStatement then RawHash(a.sha256(i.job.payload))
           else EntryRecord(r.index, i.job.kind, a.sha256(i.job.payload), rows[r.index].prevLogHash, i.job.loggedAt));
         && r.leafHash == leaf
         && InclusionProof.Accepts(a.tree, leaf, r.index, r.treeSize, r.auditPath, r.rootHash)
  {
    ReceiptsAreForOwnRows(a, steps);
    IssuedReceiptsVerify(a, steps, i);
    RunKeepsInv(a, steps);
    DenseTable(Run(a, steps).rows);
    hide Run, Table, RootAt, InclusionProof.Accepts;
  }
}
