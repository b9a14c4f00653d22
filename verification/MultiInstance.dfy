// N service instances over one database. Appending an entry and refreshing the signed tree head are
// sequences of separate database steps, interleaved arbitrarily; the database refuses an insert
// under a taken log_index and replaces the stored head by compare-and-swap.
module MultiInstance {
  import opened Basics
  import opened Authority
  import opened HashChain
  import InclusionProof
  import MerkleTree

  /** The proof part of a receipt: the leaf of one entry under the log as its instance read it. */
  datatype LogReceipt = LogReceipt(index: nat, treeSize: nat, leafHash: Digest, auditPath: seq<Digest>,
                                   rootHash: Digest)

  /** What an instance was asked to append. */
  datatype Job = Job(kind: Kind, payload: Bytes, loggedAt: int)

  /** History: the row an instance's insert wrote for its job, and the receipt it issued for it. */
  datatype Write = Write(p: nat, job: Job, index: nat)

  datatype Issued = Issued(p: nat, job: Job, receipt: LogReceipt)

  /** Where an instance is inside a registration or a refresh of the signed head. */
  datatype Instance =
    | Idle
    | Counted(job: Job, count: nat)
    | HeadRead(job: Job, count: nat, prev: Option<Digest>)
    | Inserted(job: Job, index: nat)
    | Looked(seen: Option<TreeHead>, since: nat, rows: nat)
    | Behind(size: nat, since: nat, rows: nat)
    | Sized(treeSize: nat, goal: Goal)
    | Rooted(treeSize: nat, rootHash: Digest, goal: Goal)
    | Signed(head: TreeHead, goal: Goal)

  /** What a head is signed for: to refresh the stored one, or to answer a read that started when so
      many reads had returned and so many rows were there. */
  datatype Goal = Refreshing | Answering(since: nat, rows: nat)

  /** A head that get_sth returned, and how many reads had returned and rows were there when it started. */
  datatype Answer = Answer(head: TreeHead, since: nat, rows: nat)

  /** The shared tables, the instances, and as history every head put, row written, receipt issued and
      read returned. */
  datatype State = State(rows: map<nat, Entry>, head: Option<TreeHead>, history: map<nat, TreeHead>,
                         instances: map<nat, Instance>, puts: seq<TreeHead>, writes: seq<Write>,
                         issued: seq<Issued>, answers: seq<Answer>)

  datatype Step =
    | CountRows(p: nat, job: Job)
    | ReadHead(p: nat)
    | Insert(p: nat)
    | Issue(p: nat)
    | LookUp(p: nat)
    | CompareSize(p: nat)
    | ReadSize(p: nat)
    | ReadLeaves(p: nat)
    | SignHead(p: nat, timestamp: int)
    | PutHead(p: nat)
    | Fail(p: nat)

  ghost predicate IsMax(keys: set<nat>, m: nat) {
    m in keys && forall k :: k in keys ==> k <= m
  }

  lemma {:induction false} MaxExists(keys: set<nat>)
    requires keys != {}
    ensures exists m :: IsMax(keys, m)
  {
    var x :| x in keys;
    if keys == {x} {
      assert IsMax(keys, x);
    } else {
      MaxExists(keys - {x});
      var m :| IsMax(keys - {x}, m);
      assert keys == (keys - {x}) + {x};
      assert IsMax(keys, if m < x then x else m);
    }
  }

  ghost function MaxKey(keys: set<nat>): (m: nat)
    requires keys != {}
    ensures IsMax(keys, m)
  {
    MaxExists(keys);
    var m :| IsMax(keys, m);
    m
  }

  /** SELECT ... ORDER BY log_index ASC. */
  ghost function Table(rows: map<nat, Entry>): seq<Entry>
    decreases rows.Keys
  {
    if rows.Keys == {} then []
    else
      var m := MaxKey(rows.Keys);
      assert m !in (rows - {m}).Keys;
      Table(rows - {m}) + [rows[m]]
  }

  function InstanceOf(s: State, p: nat): Instance {
    if p in s.instances then s.instances[p] else Idle
  }

  function Goto(s: State, p: nat, i: Instance): State {
    s.(instances := s.instances[p := i])
  }

  /** The tree hash an instance computes over the leaves it reads, cut at the size it read before. */
  ghost function RootSeen(a: Keys, log: seq<Entry>, size: nat): Digest {
    RootAt(a, log, if size <= |log| then size else |log|)
  }

  ghost function Next(a: Keys, s: State, step: Step): State {
    var at := InstanceOf(s, step.p);
    match step
    case CountRows(p, job) =>
      if at.Idle? then Goto(s, p, Counted(job, |s.rows|)) else s
    case ReadHead(p) =>
      if at.Counted? then
        var prev := if at.count > 0 then LogHead(a, Table(s.rows)) else None;
        Goto(s, p, HeadRead(at.job, at.count, prev))
      else s
    case Insert(p) =>
      if !at.HeadRead? then s
      else if at.count in s.rows then Goto(s, p, Idle)
      else
        var e := NewEntry(a, at.job.kind, at.job.payload, at.job.loggedAt, at.count, at.prev);
        Goto(s.(rows := s.rows[at.count := e], writes := s.writes + [Write(p, at.job, at.count)]), p,
             Inserted(at.job, at.count))
    case Issue(p) =>
      if at.Inserted? && at.index < |Table(s.rows)| then
        Goto(s.(issued := s.issued + [Issued(p, at.job, ReceiptFor(a, Table(s.rows), at.index))]), p, Idle)
      else s
    case LookUp(p) =>
      if at.Idle? then Goto(s, p, Looked(s.head, |s.answers|, |s.rows|)) else s
    case CompareSize(p) =>
      if !at.Looked? then s
      else if at.seen.Some? && at.seen.value.treeSize >= |s.rows| then
        Goto(Return(s, at.seen.value, Answering(at.since, at.rows)), p, Idle)
      else Goto(s, p, Behind(|s.rows|, at.since, at.rows))
    case ReadSize(p) =>
      if at.Idle? then Goto(s, p, Sized(|s.rows|, Refreshing))
      else if at.Behind? then Goto(s, p, Sized(|s.rows|, Answering(at.since, at.rows)))
      else s
    case ReadLeaves(p) =>
      if at.Sized? then Goto(s, p, Rooted(at.treeSize, RootSeen(a, Table(s.rows), at.treeSize), at.goal)) else s
    case SignHead(p, timestamp) =>
      if at.Rooted? then
        Goto(s, p, Signed(SignedHead(a, at.treeSize, at.rootHash, timestamp), at.goal))
      else s
    case PutHead(p) =>
      if at.Signed? then Goto(Return(Put(s, at.head), at.head, at.goal), p, Idle) else s
    case Fail(p) =>
      Goto(s, p, Idle)
  }

  /** put_sth: the conditional upsert of the latest head, and the first-wins history row. */
  function Put(s: State, h: TreeHead): State {
    s.(head := Swap(s.head, h), history := Retain(s.history, h), puts := s.puts + [h])
  }

  /** get_sth returns the head it found, or the one it signed even if it lost the swap. */
  function Return(s: State, h: TreeHead, goal: Goal): State {
    if goal.Answering? then s.(answers := s.answers + [Answer(h, goal.since, goal.rows)]) else s
  }

  /** The receipt an instance builds for its entry over all the leaves it reads. */
  function ReceiptFor(a: Keys, log: seq<Entry>, index: nat): LogReceipt
    requires index < |log|
  {
    var leaves := Leaves(a, log);
    LogReceipt(index, |log|, leaves[index], InclusionProof.AuditPath(a.tree, index, leaves), RootAt(a, log, |log|))
  }

  const INITIAL := State(map[], None, map[], map[], [], [], [], [])

  ghost function Run(a: Keys, steps: seq<Step>): State {
    if steps == [] then INITIAL else Next(a, Run(a, steps[..|steps| - 1]), steps[|steps| - 1])
  }

  // ---------------------------------------------------------------- the invariant

  /** The table holds exactly the indices below its row count. */
  ghost predicate Dense(rows: map<nat, Entry>) {
    forall k: nat :: k in rows <==> k < |rows|
  }

  lemma {:induction false} DenseTable(rows: map<nat, Entry>)
    requires Dense(rows)
    ensures |Table(rows)| == |rows|
    ensures forall k: nat :: k < |rows| ==> Table(rows)[k] == rows[k]
    decreases |rows|
  {
    if rows.Keys != {} {
      var m, n := MaxKey(rows.Keys), |rows| - 1;
      assert n in rows && m == n;
      var fewer := rows - {m};
      assert fewer.Keys == rows.Keys - {m};
      assert |fewer| == n;
      DenseTable(fewer);
    }
  }

  lemma InsertExtendsTable(rows: map<nat, Entry>, e: Entry)
    requires Dense(rows)
    ensures Dense(rows[|rows| := e]) && Table(rows[|rows| := e]) == Table(rows) + [e]
  {
    hide Table;
    var n := |rows|;
    var more, log := rows[n := e], Table(rows);
    assert n !in rows;
    assert |more| == n + 1;
    DenseTable(rows);
    DenseTable(more);
    forall i | 0 <= i < n + 1 ensures Table(more)[i] == (log + [e])[i] {
      if i < n {
        assert more[i] == rows[i];
      }
    }
  }

  ghost predicate InstanceOk(a: Keys, log: seq<Entry>, i: Instance) {
    match i
    case Idle => true
    case Counted(_, count) => count <= |log|
    case HeadRead(_, count, prev) => count <= |log| && (count == |log| ==> prev == LogHead(a, log))
    case Inserted(_, index) => index < |log|
    case Looked(seen, _, _) => seen.Some? ==> HeadOk(a, log, seen.value)
    case Behind(size, _, _) => size <= |log|
    case Sized(treeSize, _) => treeSize <= |log|
    case Rooted(treeSize, rootHash, _) => treeSize <= |log| && rootHash == RootAt(a, log, treeSize)
    case Signed(head, _) => HeadOk(a, log, head)
  }

  /** A receipt whose proof is accepted against the tree hash of the log's first treeSize entries. */
  ghost predicate ReceiptOk(a: Keys, log: seq<Entry>, r: LogReceipt) {
    && r.index < r.treeSize <= |log|
    && r.leafHash == Leaf(a, log[r.index]) && r.rootHash == RootAt(a, log, r.treeSize)
    && InclusionProof.Accepts(a.tree, r.leafHash, r.index, r.treeSize, r.auditPath, r.rootHash)
  }

  lemma ReceiptOkGrows(a: Keys, log: seq<Entry>, e: Entry, r: LogReceipt)
    requires ReceiptOk(a, log, r)
    ensures ReceiptOk(a, log + [e], r)
  {
    RootAtStable(a, log, log + [e], r.treeSize);
  }

  lemma ReceiptForOk(a: Keys, log: seq<Entry>, index: nat)
    requires index < |log|
    ensures ReceiptOk(a, log, ReceiptFor(a, log, index))
  {
    hide InclusionProof.Accepts, MerkleTree.TreeRoot;
    var leaves := Leaves(a, log);
    assert leaves[..|log|] == leaves;
    InclusionProof.GeneratedPathAccepted(a.tree, index, leaves);
  }

  /** The stored head is the latest of all heads put; the history has the first head of each size. */
  ghost predicate HeadsOk(a: Keys, log: seq<Entry>, s: State) {
    && (forall h :: h in s.puts ==> HeadOk(a, log, h) && h.treeSize in s.history)
    && (forall n :: n in s.history ==> s.history[n].treeSize == n && s.history[n] in s.puts)
    && (s.head.None? ==> s.puts == [])
    && (s.head.Some? ==> s.head.value in s.puts && forall h :: h in s.puts ==> !Precedes(s.head.value, h))
  }

  ghost predicate Inv(a: Keys, s: State) {
    var log := Table(s.rows);
    && Dense(s.rows) && Chained(a, log)
    && (forall p :: p in s.instances ==> InstanceOk(a, log, s.instances[p]))
    && HeadsOk(a, log, s)
    && (forall i :: i in s.issued ==> ReceiptOk(a, log, i.receipt))
    && forall r :: r in s.answers ==> HeadOk(a, log, r.head)
  }

  lemma InstanceOkGrows(a: Keys, log: seq<Entry>, e: Entry, i: Instance)
    requires InstanceOk(a, log, i)
    ensures InstanceOk(a, log + [e], i)
  {
    match i
    case Rooted(treeSize, _, _) => RootAtStable(a, log, log + [e], treeSize);
    case Signed(head, _) => HeadOkGrows(a, log, log + [e], head);
    case Looked(Some(head), _, _) => HeadOkGrows(a, log, log + [e], head);
    case _ =>
  }

  /** A successful insert: its index was free, so nothing was added since it counted and read the
      head, and the new row chains to the last one. */
  lemma {:induction false} InsertKeepsInv(a: Keys, s: State, p: nat)
    requires Sound(a) && Inv(a, s)
    ensures Inv(a, Next(a, s, Insert(p)))
  {
    var at, log := InstanceOf(s, p), Table(s.rows);
    DenseTable(s.rows);
    if at.HeadRead? && at.count !in s.rows {
      assert InstanceOk(a, log, at);
      assert at.count == |s.rows| && at.prev == LogHead(a, log);
      var e := NewEntry(a, at.job.kind, at.job.payload, at.job.loggedAt, at.count, at.prev);
      InsertExtendsTable(s.rows, e);
      ChainedAppend(a, log, at.job.kind, at.job.payload, at.job.loggedAt);
      forall i | InstanceOk(a, log, i) ensures InstanceOk(a, log + [e], i) {
        InstanceOkGrows(a, log, e, i);
      }
      forall h | HeadOk(a, log, h) ensures HeadOk(a, log + [e], h) {
        HeadOkGrows(a, log, log + [e], h);
      }
      forall r | ReceiptOk(a, log, r) ensures ReceiptOk(a, log + [e], r) {
        ReceiptOkGrows(a, log, e, r);
      }
    }
  }

  lemma PutKeepsHeadsOk(a: Keys, log: seq<Entry>, s: State, h: TreeHead)
    requires HeadsOk(a, log, s) && HeadOk(a, log, h)
    ensures HeadsOk(a, log, Put(s, h))
  {
    var t := Put(s, h);
    forall k | k in t.puts ensures HeadOk(a, log, k) && k.treeSize in t.history && !Precedes(t.head.value, k) {
      assert k in s.puts || k == h;
    }
    assert h in t.puts && forall k :: k in s.puts ==> k in t.puts;
  }

  lemma GotoKeepsInv(a: Keys, s: State, p: nat, i: Instance)
    requires Inv(a, s) && InstanceOk(a, Table(s.rows), i)
    ensures Inv(a, Goto(s, p, i))
  {
    hide Table, Chained, InstanceOk, ReceiptOk, HeadsOk;
    assert HeadsOk(a, Table(s.rows), Goto(s, p, i)) by { SameHeads(a, Table(s.rows), s, Goto(s, p, i)); }
  }

  lemma SameHeads(a: Keys, log: seq<Entry>, s: State, t: State)
    requires HeadsOk(a, log, s) && t.head == s.head && t.history == s.history && t.puts == s.puts
    ensures HeadsOk(a, log, t)
  {
  }

  lemma ReturnKeepsInv(a: Keys, s: State, h: TreeHead, goal: Goal)
    requires Inv(a, s) && HeadOk(a, Table(s.rows), h)
    ensures Inv(a, Return(s, h, goal))
  {
    hide Table, Chained, InstanceOk, ReceiptOk, HeadsOk, HeadOk;
    assert HeadsOk(a, Table(s.rows), Return(s, h, goal)) by { SameHeads(a, Table(s.rows), s, Return(s, h, goal)); }
  }

  lemma IssueKeepsInv(a: Keys, s: State, p: nat)
    requires Inv(a, s)
    ensures Inv(a, Next(a, s, Issue(p)))
  {
    hide Chained, InstanceOk, ReceiptOk, HeadsOk;
    var at, log := InstanceOf(s, p), Table(s.rows);
    if at.Inserted? && at.index < |log| {
      var t := s.(issued := s.issued + [Issued(p, at.job, ReceiptFor(a, log, at.index))]);
      ReceiptForOk(a, log, at.index);
      SameHeads(a, log, s, t);
      assert InstanceOk(a, log, Idle) by { IdleOk(a, log); }
      GotoKeepsInv(a, t, p, Idle);
    }
  }

  lemma IdleOk(a: Keys, log: seq<Entry>)
    ensures InstanceOk(a, log, Idle)
  {
  }

  lemma PutHeadKeepsInv(a: Keys, s: State, p: nat)
    requires Inv(a, s)
    ensures Inv(a, Next(a, s, PutHead(p)))
  {
    var at, log := InstanceOf(s, p), Table(s.rows);
    if at.Signed? {
      assert InstanceOk(a, log, at);
      PutKeepsHeadsOk(a, log, s, at.head);
      hide HeadsOk, ReceiptOk, Chained, Table;
      var t := Put(s, at.head);
      assert Inv(a, t);
      ReturnKeepsInv(a, t, at.head, at.goal);
      GotoKeepsInv(a, Return(t, at.head, at.goal), p, Idle);
    }
  }

  lemma InstanceIsOk(a: Keys, s: State, p: nat)
    requires Inv(a, s)
    ensures InstanceOk(a, Table(s.rows), InstanceOf(s, p))
    ensures |Table(s.rows)| == |s.rows|
    ensures s.head.Some? ==> HeadOk(a, Table(s.rows), s.head.value)
  {
    DenseTable(s.rows);
  }

  /** The steps after which only the instance itself has changed. */
  lemma LocalStepKeepsInv(a: Keys, s: State, step: Step)
    requires Sound(a) && Inv(a, s) && !step.Insert? && !step.Issue? && !step.PutHead? && !step.CompareSize?
    ensures Inv(a, Next(a, s, step))
  {
    hide Table, Chained, Inv, HeadOk;
    var at, log := InstanceOf(s, step.p), Table(s.rows);
    InstanceIsOk(a, s, step.p);
    if step.SignHead? && at.Rooted? {
      SignedHeadOk(a, log, at.treeSize, step.timestamp);
    }
    GotoKeepsInv(a, s, step.p, InstanceOf(Next(a, s, step), step.p));
  }

  lemma CompareSizeKeepsInv(a: Keys, s: State, p: nat)
    requires Inv(a, s)
    ensures Inv(a, Next(a, s, CompareSize(p)))
  {
    hide Table, Chained, Inv, HeadOk;
    var at := InstanceOf(s, p);
    InstanceIsOk(a, s, p);
    if at.Looked? && at.seen.Some? && at.seen.value.treeSize >= |s.rows| {
      ReturnKeepsInv(a, s, at.seen.value, Answering(at.since, at.rows));
      GotoKeepsInv(a, Return(s, at.seen.value, Answering(at.since, at.rows)), p, Idle);
    } else if at.Looked? {
      GotoKeepsInv(a, s, p, Behind(|s.rows|, at.since, at.rows));
    }
  }

  lemma NextKeepsInv(a: Keys, s: State, step: Step)
    requires Sound(a) && Inv(a, s)
    ensures Inv(a, Next(a, s, step))
  {
    hide Inv, Next;
    match step
    case Insert(p) => InsertKeepsInv(a, s, p);
    case Issue(p) => IssueKeepsInv(a, s, p);
    case PutHead(p) => PutHeadKeepsInv(a, s, p);
    case CompareSize(p) => CompareSizeKeepsInv(a, s, p);
    case _ => LocalStepKeepsInv(a, s, step);
  }

  lemma {:induction false} RunKeepsInv(a: Keys, steps: seq<Step>)
    requires Sound(a)
    ensures Inv(a, Run(a, steps))
  {
    if steps != [] {
      RunKeepsInv(a, steps[..|steps| - 1]);
      NextKeepsInv(a, Run(a, steps[..|steps| - 1]), steps[|steps| - 1]);
    }
  }

  // ---------------------------------------------------------------- what every run guarantees

  ghost predicate RowLinked(a: Keys, rows: map<nat, Entry>, k: nat) {
    && k in rows && rows[k].logIndex == k
    && (k == 0 ==> rows[k].prevLogHash == None)
    && (k > 0 ==> k - 1 in rows && rows[k].prevLogHash == Some(EntryHead(a, rows[k - 1])))
  }

  /** Under every interleaving the table reads back as a log verify_log accepts, with contiguous
      indices and every link intact. */
  lemma {:induction false} StoredLogVerifies(a: Keys, steps: seq<Step>)
    requires Sound(a)
    ensures var rows := Run(a, steps).rows;
      && Dense(rows) && Chained(a, Table(rows))
      && forall k: nat :: k < |rows| ==> RowLinked(a, rows, k)
  {
    RunKeepsInv(a, steps);
    var rows := Run(a, steps).rows;
    DenseTable(rows);
    forall k: nat | k < |rows| ensures RowLinked(a, rows, k) {
      assert EntryLinked(a, Table(rows), k);
      assert k > 0 ==> Table(rows)[..k][k - 1] == rows[k - 1];
    }
  }

  /** An insert goes through exactly when no row was added since its instance counted. */
  lemma {:induction false} InsertIffNothingAdded(a: Keys, steps: seq<Step>, p: nat)
    requires Sound(a) && InstanceOf(Run(a, steps), p).HeadRead?
    ensures var s := Run(a, steps); var at := InstanceOf(s, p);
      && at.count <= |s.rows|
      && Next(a, s, Insert(p)).rows ==
        if at.count == |s.rows|
        then s.rows[|s.rows| := NewEntry(a, at.job.kind, at.job.payload, at.job.loggedAt, |s.rows|,
                                         LogHead(a, Table(s.rows)))]
        else s.rows
  {
    RunKeepsInv(a, steps);
    var s := Run(a, steps);
    DenseTable(s.rows);
    assert InstanceOk(a, Table(s.rows), InstanceOf(s, p));
  }

  /** The stored head is the lexicographic maximum of all heads put so far, by size and then by time, and
      the history has a head for every size that was put. */
  lemma {:induction false} StoredHeadIsLatest(a: Keys, steps: seq<Step>)
    requires Sound(a)
    ensures var s := Run(a, steps);
      && (s.head.None? <==> s.puts == [])
      && (s.head.Some? ==> s.head.value in s.puts)
      && (forall h :: h in s.puts ==>
        && (h.treeSize < s.head.value.treeSize
          || (h.treeSize == s.head.value.treeSize && h.timestamp <= s.head.value.timestamp))
        && h.treeSize in s.history)
  {
    RunKeepsInv(a, steps);
  }

  /** Every retained head is a signed tree hash of exactly the first treeSize entries of the log as
      it stands now, although the log may have grown between the size read and the leaf read. */
  lemma {:induction false} HistoryHoldsTreeHashes(a: Keys, steps: seq<Step>, n: nat)
    requires Sound(a) && n in Run(a, steps).history
    ensures var s := Run(a, steps); var log := Table(s.rows);
      && s.history[n].treeSize == n <= |log|
      && s.history[n].rootHash == RootAt(a, log, n)
      && a.verify(SthMessage(n, s.history[n].rootHash, s.history[n].timestamp), s.history[n].signature)
  {
    RunKeepsInv(a, steps);
  }

  /** Every receipt an instance issues, however many entries others add in between, proves its entry
      under the tree hash of the log's first treeSize entries, now and at every later moment. */
  lemma {:induction false} IssuedReceiptsVerify(a: Keys, steps: seq<Step>, i: Issued)
    requires Sound(a) && i in Run(a, steps).issued
    ensures ReceiptOk(a, Table(Run(a, steps).rows), i.receipt)
  {
    RunKeepsInv(a, steps);
  }

  /** What one step may do to the shared tables. */
  ghost predicate Grows(s: State, t: State) {
    && s.issued <= t.issued
    && (forall k :: k in s.rows ==> k in t.rows && t.rows[k] == s.rows[k])
    && (forall n :: n in s.history ==> n in t.history && t.history[n] == s.history[n])
    && (s.head.Some? ==> t.head.Some? && !Precedes(t.head.value, s.head.value))
  }

  lemma NextGrows(a: Keys, s: State, step: Step)
    ensures Grows(s, Next(a, s, step))
  {
  }

  lemma NothingChanges(s: State)
    ensures Grows(s, s)
  {
  }

  lemma GrowsTransitive(s: State, t: State, u: State)
    requires Grows(s, t) && Grows(t, u)
    ensures Grows(s, u)
  {
  }

  /** Rows and history rows never change or disappear, and the head a reader sees never goes back,
      between any two moments of any run. */
  lemma {:induction false} RunGrows(a: Keys, steps: seq<Step>, later: seq<Step>)
    ensures Grows(Run(a, steps), Run(a, steps + later))
  {
    hide Grows, Next;
    if later == [] {
      assert steps + later == steps;
      NothingChanges(Run(a, steps));
    } else {
      var n := |later| - 1;
      RunGrows(a, steps, later[..n]);
      assert (steps + later)[..|steps + later| - 1] == steps + later[..n];
      NextGrows(a, Run(a, steps + later[..n]), later[n]);
      GrowsTransitive(Run(a, steps), Run(a, steps + later[..n]), Run(a, steps + later));
    }
  }

  // ---------------------------------------------------------------- reads of the signed head

  /** The first so many reads that returned are no newer than a head, by size and then by time. */
  predicate NoOlder(answers: seq<Answer>, since: nat, h: TreeHead) {
    && since <= |answers|
    && forall i :: 0 <= i < since ==>
         answers[i].head.treeSize < h.treeSize
         || (answers[i].head.treeSize == h.treeSize && answers[i].head.timestamp <= h.timestamp)
  }

  /** They are all of smaller trees than size. */
  predicate Smaller(answers: seq<Answer>, since: nat, size: nat) {
    since <= |answers| && forall i :: 0 <= i < since ==> answers[i].head.treeSize < size
  }

  /** Where a read has got to, what it will return is not older than any read it started after. */
  predicate ReaderOk(s: State, i: Instance) {
    match i
    case Looked(seen, since, rows) =>
      && rows <= |s.rows|
      && if seen.None? then since == 0
         else NoOlder(s.answers, since, seen.value) && s.head.Some? && !Precedes(s.head.value, seen.value)
    case Behind(size, since, rows) => rows <= size <= |s.rows| && Smaller(s.answers, since, size)
    case Sized(treeSize, Answering(since, rows)) => rows <= treeSize && Smaller(s.answers, since, treeSize)
    case Rooted(treeSize, _, Answering(since, rows)) => rows <= treeSize && Smaller(s.answers, since, treeSize)
    case Signed(head, Answering(since, rows)) => rows <= head.treeSize && Smaller(s.answers, since, head.treeSize)
    case _ => true
  }

  /** The stored head is no older than any read that returned, and no read is older than one that
      had returned before it started. */
  ghost predicate ReadsInv(s: State) {
    && (s.head.None? ==> s.answers == [])
    && (s.head.Some? ==> NoOlder(s.answers, |s.answers|, s.head.value))
    && (forall p :: p in s.instances ==> ReaderOk(s, s.instances[p]))
    && (forall j :: 0 <= j < |s.answers| ==> NoOlder(s.answers, s.answers[j].since, s.answers[j].head))
    && forall r :: r in s.answers ==> r.rows <= r.head.treeSize
  }

  lemma ReturnKeepsReads(s: State, h: TreeHead, goal: Goal)
    requires ReadsInv(s) && s.head.Some? && !Precedes(s.head.value, h)
    requires goal.Answering? ==> goal.rows <= h.treeSize && NoOlder(s.answers, goal.since, h)
    ensures ReadsInv(Return(s, h, goal))
  {
    var t := Return(s, h, goal);
    forall p | p in t.instances ensures ReaderOk(t, t.instances[p]) {
      assert ReaderOk(s, s.instances[p]);
    }
  }

  lemma PutKeepsReads(s: State, h: TreeHead)
    requires ReadsInv(s)
    ensures ReadsInv(Put(s, h)) && Put(s, h).head.Some? && !Precedes(Put(s, h).head.value, h)
  {
    var t := Put(s, h);
    forall p | p in t.instances ensures ReaderOk(t, t.instances[p]) {
      assert ReaderOk(s, s.instances[p]);
    }
  }

  lemma GotoKeepsReads(s: State, p: nat, i: Instance)
    requires ReadsInv(s) && ReaderOk(s, i)
    ensures ReadsInv(Goto(s, p, i))
  {
    var t := Goto(s, p, i);
    forall q | q in t.instances ensures ReaderOk(t, t.instances[q]) {
      assert q != p ==> ReaderOk(s, s.instances[q]);
    }
  }

  lemma ReaderIsOk(s: State, p: nat)
    requires ReadsInv(s)
    ensures ReaderOk(s, InstanceOf(s, p))
  {
  }

  lemma InsertKeepsReads(s: State, index: nat, e: Entry, writes: seq<Write>)
    requires ReadsInv(s) && index !in s.rows
    ensures ReadsInv(s.(rows := s.rows[index := e], writes := writes))
  {
    var t := s.(rows := s.rows[index := e], writes := writes);
    assert t.rows.Keys == s.rows.Keys + {index};
    assert |t.rows.Keys| == |s.rows.Keys| + 1;
    forall p | p in t.instances ensures ReaderOk(t, t.instances[p]) {
      assert ReaderOk(s, s.instances[p]);
    }
  }

  lemma IssueKeepsReads(s: State, issued: seq<Issued>)
    requires ReadsInv(s)
    ensures ReadsInv(s.(issued := issued))
  {
    var t := s.(issued := issued);
    forall p | p in t.instances ensures ReaderOk(t, t.instances[p]) {
      assert ReaderOk(s, s.instances[p]);
    }
  }

  lemma CompareKeepsReads(a: Keys, s: State, p: nat)
    requires ReadsInv(s)
    ensures ReadsInv(Next(a, s, CompareSize(p)))
  {
    var at := InstanceOf(s, p);
    ReaderIsOk(s, p);
    if at.Looked? {
      if at.seen.Some? && at.seen.value.treeSize >= |s.rows| {
        ReturnKeepsReads(s, at.seen.value, Answering(at.since, at.rows));
        GotoKeepsReads(Return(s, at.seen.value, Answering(at.since, at.rows)), p, Idle);
      } else {
        GotoKeepsReads(s, p, Behind(|s.rows|, at.since, at.rows));
      }
    }
  }

  lemma PutHeadKeepsReads(a: Keys, s: State, p: nat)
    requires ReadsInv(s)
    ensures ReadsInv(Next(a, s, PutHead(p)))
  {
    var at := InstanceOf(s, p);
    ReaderIsOk(s, p);
    if at.Signed? {
      PutKeepsReads(s, at.head);
      ReturnKeepsReads(Put(s, at.head), at.head, at.goal);
      GotoKeepsReads(Return(Put(s, at.head), at.head, at.goal), p, Idle);
    }
  }

  lemma NextKeepsReads(a: Keys, s: State, step: Step)
    requires ReadsInv(s)
    ensures ReadsInv(Next(a, s, step))
  {
    var at := InstanceOf(s, step.p);
    ReaderIsOk(s, step.p);
    match step
    case CompareSize(p) => CompareKeepsReads(a, s, p);
    case PutHead(p) => PutHeadKeepsReads(a, s, p);
    case Insert(p) =>
      hide ReadsInv, Table;
      if at.HeadRead? && at.count !in s.rows {
        var e := NewEntry(a, at.job.kind, at.job.payload, at.job.loggedAt, at.count, at.prev);
        var writes := s.writes + [Write(p, at.job, at.count)];
        InsertKeepsReads(s, at.count, e, writes);
        GotoKeepsReads(s.(rows := s.rows[at.count := e], writes := writes), p, Inserted(at.job, at.count));
      } else {
        GotoKeepsReads(s, p, Idle);
      }
    case Issue(p) =>
      hide ReadsInv, Table;
      if at.Inserted? && at.index < |Table(s.rows)| {
        var issued := s.issued + [Issued(p, at.job, ReceiptFor(a, Table(s.rows), at.index))];
        IssueKeepsReads(s, issued);
        GotoKeepsReads(s.(issued := issued), p, Idle);
      }
    case _ =>
      hide Table, RootSeen;
      GotoKeepsReads(s, step.p, InstanceOf(Next(a, s, step), step.p));
  }

  /** A read of the signed head covers every row that was there when it started, and never returns an
      older head than a read that had returned by then, also when it signs one itself and loses the
      swap; and the stored head is no older than any head ever returned. */
  lemma {:induction false} ReadsNeverGoBack(a: Keys, steps: seq<Step>)
    ensures var s := Run(a, steps);
      && (forall j :: 0 <= j < |s.answers| ==> NoOlder(s.answers, s.answers[j].since, s.answers[j].head))
      && (forall r :: r in s.answers ==> r.head.treeSize >= r.rows)
      && (s.answers != [] ==> s.head.Some? && NoOlder(s.answers, |s.answers|, s.head.value))
  {
    RunKeepsReads(a, steps);
  }

  /** Every head a read returned is the signed tree hash of the log's first treeSize entries, whether
      or not it won the swap. */
  lemma {:induction false} ReadsAreHeads(a: Keys, steps: seq<Step>, r: Answer)
    requires Sound(a) && r in Run(a, steps).answers
    ensures HeadOk(a, Table(Run(a, steps).rows), r.head)
  {
    RunKeepsInv(a, steps);
  }

  lemma {:induction false} RunKeepsReads(a: Keys, steps: seq<Step>)
    ensures ReadsInv(Run(a, steps))
  {
    if steps != [] {
      hide ReadsInv, Next;
      RunKeepsReads(a, steps[..|steps| - 1]);
      NextKeepsReads(a, Run(a, steps[..|steps| - 1]), steps[|steps| - 1]);
    }
  }
}
