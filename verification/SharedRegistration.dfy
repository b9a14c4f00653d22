// Registration by N service instances over one database. The lock that makes dedup and the
// continuity gate atomic belongs to one process, so between instances the cache lookup, the tip
// read, the append, the cache write and the tip write are separate steps.
module SharedRegistration {
  import opened Basics
  import opened Checkpoints
  import opened WitnessState
  import opened WitnessRuns
  import opened TipChain

  /** A submission: its entry hash, and its checkpoint if it comes from POST /checkpoints. */
  datatype Job = Job(key: Digest, cp: Option<Checkpoint>)

  /** Where an instance is inside a registration; seen and grade are what its gate read and said. */
  datatype Phase =
    | Free
    | Missed(job: Job)
    | Passed(job: Job, seen: Option<Tip>, grade: Option<Grade>)
    | Logged(job: Job, seen: Option<Tip>, grade: Option<Grade>)
    | Stored(job: Job, seen: Option<Tip>, grade: Option<Grade>)

  /** The leaves by entry hash, the cache keys, the tips, the instances, and the acceptances, which
      stand from the moment their receipt is stored. */
  datatype State = State(leaves: seq<Digest>, cache: set<Digest>, tips: Tips, phases: map<nat, Phase>,
                         accepted: seq<Acceptance>)

  datatype Step =
    | LookUp(p: nat, job: Job)
    | PassGate(p: nat)
    | AppendLeaf(p: nat)
    | StoreReceipt(p: nat)
    | MoveTip(p: nat)
    | Fail(p: nat)

  function PhaseOf(s: State, p: nat): Phase {
    if p in s.phases then s.phases[p] else Free
  }

  function Enter(s: State, p: nat, ph: Phase): State {
    s.(phases := s.phases[p := ph])
  }

  /** What the gate of an instance says: its refusals end the registration. */
  function Verdict(x: Setup, tips: Tips, job: Job): Option<Option<Grade>> {
    var r := GateContinuity(x, tips, map[], job.cp).1;
    if r.Ok? then Some(r.value) else None
  }

  function TipFor(tips: Tips, job: Job): Option<Tip> {
    if job.cp.Some? then TipOfLog(tips, job.cp.value.logId) else None
  }

  /** The acceptance whose receipt an instance stores. */
  function AcceptedBy(ph: Phase): seq<Acceptance>
    requires ph.Logged? || ph.Stored?
  {
    if ph.job.cp.None? || ph.grade.None? then [] else [Direct(ph.job.cp.value, ph.grade.value, ph.seen)]
  }

  function Next(x: Setup, s: State, step: Step): State {
    var at := PhaseOf(s, step.p);
    match step
    case LookUp(p, job) =>
      if at.Free? && job.key !in s.cache then Enter(s, p, Missed(job)) else s
    case PassGate(p) =>
      if !at.Missed? then s
      else if Verdict(x, s.tips, at.job).None? then Enter(s, p, Free)
      else Enter(s, p, Passed(at.job, TipFor(s.tips, at.job), Verdict(x, s.tips, at.job).value))
    case AppendLeaf(p) =>
      if at.Passed? then Enter(s.(leaves := s.leaves + [at.job.key]), p, Logged(at.job, at.seen, at.grade)) else s
    case StoreReceipt(p) =>
      if at.Logged? then
        Enter(s.(cache := s.cache + {at.job.key}, accepted := s.accepted + AcceptedBy(at)), p,
              Stored(at.job, at.seen, at.grade))
      else s
    case MoveTip(p) =>
      if at.Stored? then Enter(s.(tips := MoveTips(s.tips, None, at.job.cp, at.grade)), p, Free) else s
    case Fail(p) => Enter(s, p, Free)
  }

  const INITIAL := State([], {}, map[], map[], [])

  function Run(x: Setup, steps: seq<Step>): State {
    if steps == [] then INITIAL else Next(x, Run(x, steps[..|steps| - 1]), steps[|steps| - 1])
  }

  // ---------------------------------------------------------------- exactly once, between instances

  /** Between the lookup that missed an entry hash and the write that caches it. */
  predicate Registering(ph: Phase, key: Digest) {
    !ph.Free? && !ph.Stored? && ph.job.key == key
  }

  predicate Uncached(ph: Phase, key: Digest) {
    (ph.Missed? || ph.Passed?) && ph.job.key == key
  }

  /** Two instances are registering one entry hash at once. */
  ghost predicate Overlap(s: State, key: Digest) {
    exists p, q :: p != q && Registering(PhaseOf(s, p), key) && Registering(PhaseOf(s, q), key)
  }

  /** An instance fails after the append and before the cache write. */
  predicate LosesReceipt(s: State, step: Step, key: Digest) {
    step.Fail? && PhaseOf(s, step.p).Logged? && PhaseOf(s, step.p).job.key == key
  }

  /** At no moment of a run do two instances register the entry hash at once, nor does one fail
      between its append and its cache write. */
  ghost predicate Undisturbed(x: Setup, steps: seq<Step>, key: Digest) {
    && (forall n :: 0 <= n <= |steps| ==> !Overlap(Run(x, steps[..n]), key))
    && (forall n :: 0 <= n < |steps| ==> !LosesReceipt(Run(x, steps[..n]), steps[n], key))
  }

  predicate IsLeaf(s: State, i: nat, key: Digest) {
    i < |s.leaves| && s.leaves[i] == key
  }

  ghost predicate OnceInv(s: State, key: Digest) {
    && (forall i, j :: IsLeaf(s, i, key) && IsLeaf(s, j, key) ==> i == j)
    && (key in s.leaves ==> key in s.cache || exists p :: PhaseOf(s, p).Logged? && PhaseOf(s, p).job.key == key)
    && (key in s.cache ==> forall p :: !Registering(PhaseOf(s, p), key))
    && (key in s.leaves ==> forall p :: !Uncached(PhaseOf(s, p), key))
  }

  lemma NextKeepsOnce(x: Setup, s: State, step: Step, key: Digest)
    requires OnceInv(s, key) && !Overlap(s, key) && !Overlap(Next(x, s, step), key) && !LosesReceipt(s, step, key)
    ensures OnceInv(Next(x, s, step), key)
  {
    hide Verdict, TipFor, Overlap, AcceptedBy;
    var t, at := Next(x, s, step), PhaseOf(s, step.p);
    if step.AppendLeaf? && at.Passed? {
      AppendKeepsOnce(x, s, step.p, key);
    } else {
      assert forall p :: p != step.p ==> PhaseOf(t, p) == PhaseOf(s, p);
      assert forall i :: IsLeaf(t, i, key) <==> IsLeaf(s, i, key);
      if Registering(at, key) {
        AloneIn(s, step.p, key);
      }
      if Registering(PhaseOf(t, step.p), key) {
        AloneIn(t, step.p, key);
      }
      if key in s.leaves && key !in s.cache {
        var q :| PhaseOf(s, q).Logged? && PhaseOf(s, q).job.key == key;
        assert q != step.p ==> PhaseOf(t, q).Logged? && Registering(PhaseOf(t, q), key);
      }
    }
  }

  lemma AppendKeepsOnce(x: Setup, s: State, p: nat, key: Digest)
    requires OnceInv(s, key) && !Overlap(s, key) && PhaseOf(s, p).Passed?
    ensures OnceInv(Next(x, s, AppendLeaf(p)), key)
  {
    hide Overlap;
    var t, at := Next(x, s, AppendLeaf(p)), PhaseOf(s, p);
    assert forall q :: q != p ==> PhaseOf(t, q) == PhaseOf(s, q);
    assert forall i :: IsLeaf(t, i, key) ==> IsLeaf(s, i, key) || (i == |s.leaves| && at.job.key == key);
    if at.job.key == key {
      AloneIn(s, p, key);
      assert Uncached(at, key) && key !in s.leaves && PhaseOf(t, p).Logged?;
    } else if key in s.leaves && key !in s.cache {
      var q :| PhaseOf(s, q).Logged? && PhaseOf(s, q).job.key == key;
      assert PhaseOf(t, q).Logged?;
    }
  }

  lemma AloneIn(s: State, p: nat, key: Digest)
    requires !Overlap(s, key) && Registering(PhaseOf(s, p), key)
    ensures forall q :: q != p ==> !Registering(PhaseOf(s, q), key)
  {
  }

  /** Without either disturbance an entry hash has at most one leaf. */
  lemma {:induction false} UndisturbedOnce(x: Setup, steps: seq<Step>, key: Digest)
    requires Undisturbed(x, steps, key)
    ensures OnceInv(Run(x, steps), key)
  {
    hide OnceInv, Overlap, LosesReceipt, Next;
    assert steps[..|steps|] == steps;
    if steps == [] {
      InitialOnce(key);
    } else {
      var front := steps[..|steps| - 1];
      assert forall n :: 0 <= n <= |front| ==> front[..n] == steps[..n];
      UndisturbedOnce(x, front, key);
      assert !LosesReceipt(Run(x, steps[..|front|]), steps[|front|], key);
      NextKeepsOnce(x, Run(x, front), steps[|front|], key);
    }
  }

  lemma InitialOnce(key: Digest)
    ensures OnceInv(INITIAL, key)
  {
  }

  // ---------------------------------------------------------------- runs of two instances at once

  /** More steps from a state. */
  function Onward(x: Setup, s: State, more: seq<Step>): State
    decreases |more|
  {
    if more == [] then s else Onward(x, Next(x, s, more[0]), more[1..])
  }

  lemma {:induction false} RunOn(x: Setup, steps: seq<Step>, more: seq<Step>)
    ensures Run(x, steps + more) == Onward(x, Run(x, steps), more)
    decreases |more|
  {
    hide Next;
    if more == [] {
      assert steps + more == steps;
    } else {
      var longer := steps + [more[0]];
      assert longer[..|steps|] == steps && steps + more == longer + more[1..];
      RunOn(x, longer, more[1..]);
    }
  }

  lemma OnwardStep(x: Setup, s: State, step: Step, more: seq<Step>)
    ensures Onward(x, s, [step] + more) == Onward(x, Next(x, s, step), more)
  {
    hide Next;
    assert ([step] + more)[1..] == more;
  }

  lemma OnwardTwo(x: Setup, s: State, step1: Step, step2: Step)
    ensures Onward(x, s, [step1, step2]) == Next(x, Next(x, s, step1), step2)
  {
    hide Next;
    assert [step1] + [step2] == [step1, step2];
    OnwardStep(x, s, step1, [step2]);
    OnwardStep(x, Next(x, s, step1), step2, []);
    assert [step2] + [] == [step2];
  }

  lemma {:induction false} OnwardJoins(x: Setup, s: State, a: seq<Step>, b: seq<Step>)
    ensures Onward(x, s, a + b) == Onward(x, Onward(x, s, a), b)
    decreases |a|
  {
    hide Next;
    if a == [] {
      assert a + b == b;
    } else {
      assert a + b == [a[0]] + (a[1..] + b);
      OnwardStep(x, s, a[0], a[1..] + b);
      OnwardJoins(x, Next(x, s, a[0]), a[1..], b);
    }
  }

  /** An instance that can start on a job now, and will pass its gate. */
  predicate Ready(x: Setup, s: State, p: nat, job: Job) {
    PhaseOf(s, p).Free? && job.key !in s.cache && Verdict(x, s.tips, job).Some?
  }

  function Gated(x: Setup, s: State, job: Job): Phase
    requires Verdict(x, s.tips, job).Some?
  {
    Passed(job, TipFor(s.tips, job), Verdict(x, s.tips, job).value)
  }

  /** The acceptance that follows, if the job is a checkpoint. */
  function Earning(x: Setup, s: State, job: Job): Acceptance
    requires job.cp.Some? && Verdict(x, s.tips, job).Some? && Verdict(x, s.tips, job).value.Some?
  {
    Direct(job.cp.value, Verdict(x, s.tips, job).value.value, TipOfLog(s.tips, job.cp.value.logId))
  }

  /** One instance, from its lookup to its stored receipt. */
  function Alone(p: nat, job: Job): seq<Step> {
    [LookUp(p, job), PassGate(p), AppendLeaf(p), StoreReceipt(p)]
  }

  lemma AloneStores(x: Setup, s: State, p: nat, job: Job)
    requires Ready(x, s, p, job)
    ensures var t, g := Onward(x, s, Alone(p, job)), Gated(x, s, job);
      && t.leaves == s.leaves + [job.key] && t.cache == s.cache + {job.key} && t.tips == s.tips
      && t.accepted == s.accepted + AcceptedBy(Stored(job, g.seen, g.grade))
      && PhaseOf(t, p) == Stored(job, g.seen, g.grade)
      && forall q :: q != p ==> PhaseOf(t, q) == PhaseOf(s, q)
  {
    hide Verdict, TipFor, Onward;
    var passed := Next(x, Next(x, s, LookUp(p, job)), PassGate(p));
    assert [LookUp(p, job), PassGate(p)] + [AppendLeaf(p), StoreReceipt(p)] == Alone(p, job);
    OnwardJoins(x, s, [LookUp(p, job), PassGate(p)], [AppendLeaf(p), StoreReceipt(p)]);
    OnwardTwo(x, s, LookUp(p, job), PassGate(p));
    OnwardTwo(x, passed, AppendLeaf(p), StoreReceipt(p));
    assert PhaseOf(passed, p) == Gated(x, s, job);
  }

  /** Two instances whose lookups both come before either cache write. */
  function BothAppend(p: nat, q: nat, j0: Job, j1: Job): seq<Step> {
    [LookUp(p, j0), LookUp(q, j1)] + [PassGate(p), PassGate(q)] + [AppendLeaf(p), AppendLeaf(q)]
  }

  lemma BothAppended(x: Setup, s: State, p: nat, q: nat, j0: Job, j1: Job)
    requires p != q && Ready(x, s, p, j0) && Ready(x, s, q, j1)
    ensures var t, g0, g1 := Onward(x, s, BothAppend(p, q, j0, j1)), Gated(x, s, j0), Gated(x, s, j1);
      && t.leaves == s.leaves + [j0.key, j1.key]
      && t.cache == s.cache && t.tips == s.tips && t.accepted == s.accepted
      && PhaseOf(t, p) == Logged(j0, g0.seen, g0.grade) && PhaseOf(t, q) == Logged(j1, g1.seen, g1.grade)
  {
    hide Verdict, TipFor, Onward;
    var looked, passing, appending := [LookUp(p, j0), LookUp(q, j1)], [PassGate(p), PassGate(q)],
      [AppendLeaf(p), AppendLeaf(q)];
    OnwardJoins(x, s, looked + passing, appending);
    OnwardJoins(x, s, looked, passing);
    OnwardTwo(x, s, LookUp(p, j0), LookUp(q, j1));
    var missed := Onward(x, s, looked);
    OnwardTwo(x, missed, PassGate(p), PassGate(q));
    var passed := Onward(x, missed, passing);
    assert PhaseOf(passed, p) == Gated(x, s, j0) && PhaseOf(passed, q) == Gated(x, s, j1);
    OnwardTwo(x, passed, AppendLeaf(p), AppendLeaf(q));
  }

  /** Overlap is enough for a second leaf: in every run, two instances that look an uncached entry hash
      up before either caches it append it twice. */
  lemma {:induction false} OverlapDoubles(x: Setup, steps: seq<Step>, p: nat, q: nat, job: Job)
    requires p != q && Ready(x, Run(x, steps), p, job) && Ready(x, Run(x, steps), q, job)
    ensures Run(x, steps + BothAppend(p, q, job, job)).leaves == Run(x, steps).leaves + [job.key, job.key]
  {
    hide Run, Onward;
    RunOn(x, steps, BothAppend(p, q, job, job));
    BothAppended(x, Run(x, steps), p, q, job, job);
  }

  /** So is a failure between the append and the cache write: the retry appends again. */
  lemma {:induction false} LostReceiptDoubles(x: Setup, steps: seq<Step>, p: nat, job: Job)
    requires Ready(x, Run(x, steps), p, job)
    ensures var lost := [LookUp(p, job), PassGate(p), AppendLeaf(p), Fail(p)];
      Run(x, steps + (lost + Alone(p, job))).leaves == Run(x, steps).leaves + [job.key, job.key]
  {
    hide Run, Onward, Verdict, TipFor;
    var s, lost := Run(x, steps), [LookUp(p, job), PassGate(p), AppendLeaf(p), Fail(p)];
    RunOn(x, steps, lost + Alone(p, job));
    OnwardJoins(x, s, lost, Alone(p, job));
    assert [LookUp(p, job), PassGate(p)] + [AppendLeaf(p), Fail(p)] == lost;
    OnwardJoins(x, s, [LookUp(p, job), PassGate(p)], [AppendLeaf(p), Fail(p)]);
    OnwardTwo(x, s, LookUp(p, job), PassGate(p));
    var passed := Onward(x, s, [LookUp(p, job), PassGate(p)]);
    OnwardTwo(x, passed, AppendLeaf(p), Fail(p));
    AloneStores(x, Onward(x, s, lost), p, job);
  }

  // ---------------------------------------------------------------- one chain of tips, between instances

  /** Between the tip read of an instance's gate and its tip write. */
  predicate Holding(ph: Phase, logId: string) {
    (ph.Passed? || ph.Logged? || ph.Stored?) && ph.job.cp.Some? && ph.job.cp.value.logId == logId
  }

  /** Two instances hold a tip of one log at once. */
  ghost predicate TipOverlap(s: State, logId: string) {
    exists p, q :: p != q && Holding(PhaseOf(s, p), logId) && Holding(PhaseOf(s, q), logId)
  }

  /** An instance that moves a tip of the log fails after its cache write and before its tip write. */
  predicate LosesTip(s: State, step: Step, logId: string) {
    && step.Fail? && PhaseOf(s, step.p).Stored? && Holding(PhaseOf(s, step.p), logId)
    && PhaseOf(s, step.p).grade != Some(Registered)
  }

  /** At no moment of a run do two instances hold a tip of the log at once, nor does one fail between
      its cache write and its tip write. */
  ghost predicate TipsUndisturbed(x: Setup, steps: seq<Step>, logId: string) {
    && (forall n :: 0 <= n <= |steps| ==> !TipOverlap(Run(x, steps[..n]), logId))
    && (forall n :: 0 <= n < |steps| ==> !LosesTip(Run(x, steps[..n]), steps[n], logId))
  }

  /** The acceptances of one log form a chain. */
  ghost predicate ChainOf(x: Setup, accepted: seq<Acceptance>, logId: string) {
    forall i :: 0 <= i < |accepted| && LogOf(accepted[i]) == logId ==>
      accepted[i].before == LastTip(accepted[..i], logId) && Links(x, accepted[i])
  }

  /** An instance that holds a tip read the stored one, its acceptance links to it, and once its receipt
      is stored the chain of acceptances is ahead of the stored tip by that acceptance. */
  predicate HoldsTip(x: Setup, s: State, ph: Phase, logId: string) {
    Holding(ph, logId) ==>
      && ph.grade.Some? && ph.seen == TipOfLog(s.tips, logId)
      && Links(x, Direct(ph.job.cp.value, ph.grade.value, ph.seen))
      && (ph.Stored? ==> LastTip(s.accepted, logId) == TipAfter(ph))
  }

  /** The tip an acceptance leaves. */
  function TipAfter(ph: Phase): Option<Tip>
    requires ph.Stored? && ph.job.cp.Some?
  {
    if ph.grade == Some(Registered) then ph.seen else Some(TipOf(ph.job.cp.value))
  }

  predicate AwaitsTip(ph: Phase, logId: string) {
    ph.Stored? && Holding(ph, logId)
  }

  ghost predicate TipsInv(x: Setup, s: State, logId: string) {
    && ChainOf(x, s.accepted, logId)
    && (forall p :: HoldsTip(x, s, PhaseOf(s, p), logId))
    && ((forall p :: !AwaitsTip(PhaseOf(s, p), logId)) ==> TipOfLog(s.tips, logId) == LastTip(s.accepted, logId))
  }

  lemma GateLinks(x: Setup, tips: Tips, job: Job)
    requires job.cp.Some? && Verdict(x, tips, job).Some?
    ensures var g := Verdict(x, tips, job).value;
      g.Some? && Links(x, Direct(job.cp.value, g.value, TipOfLog(tips, job.cp.value.logId)))
  {
  }

  lemma ChainOfExtends(x: Setup, accepted: seq<Acceptance>, a: Acceptance, logId: string)
    requires ChainOf(x, accepted, logId)
    requires LogOf(a) == logId ==> a.before == LastTip(accepted, logId) && Links(x, a)
    ensures ChainOf(x, accepted + [a], logId)
    ensures LastTip(accepted + [a], logId)
      == if LogOf(a) == logId && Moves(a) then Some(NewTip(a)) else LastTip(accepted, logId)
  {
    hide Links;
    var longer := accepted + [a];
    assert longer[..|accepted|] == accepted;
    forall i | 0 <= i < |longer| && LogOf(longer[i]) == logId
      ensures longer[i].before == LastTip(longer[..i], logId) && Links(x, longer[i])
    {
      if i < |accepted| {
        assert longer[..i] == accepted[..i] && longer[i] == accepted[i];
      }
    }
  }

  lemma OnlyHolder(s: State, p: nat, logId: string)
    requires !TipOverlap(s, logId) && Holding(PhaseOf(s, p), logId)
    ensures forall q :: q != p ==> !Holding(PhaseOf(s, q), logId)
  {
  }

  lemma StoreKeepsTips(x: Setup, s: State, p: nat, logId: string)
    requires TipsInv(x, s, logId) && !TipOverlap(s, logId) && PhaseOf(s, p).Logged?
    ensures TipsInv(x, Next(x, s, StoreReceipt(p)), logId)
  {
    hide Links, LastTip, ChainOf, TipOverlap;
    var t, at := Next(x, s, StoreReceipt(p)), PhaseOf(s, p);
    assert HoldsTip(x, s, at, logId);
    if Holding(at, logId) {
      OnlyHolder(s, p, logId);
    }
    if at.job.cp.Some? && at.grade.Some? {
      ChainOfExtends(x, s.accepted, Direct(at.job.cp.value, at.grade.value, at.seen), logId);
    } else {
      assert t.accepted == s.accepted;
    }
    assert forall q :: q != p ==> PhaseOf(t, q) == PhaseOf(s, q);
    forall q ensures HoldsTip(x, t, PhaseOf(t, q), logId) {
      assert HoldsTip(x, s, PhaseOf(s, q), logId);
    }
    if forall q :: !AwaitsTip(PhaseOf(t, q), logId) {
      assert !AwaitsTip(PhaseOf(t, p), logId);
      assert forall q :: AwaitsTip(PhaseOf(s, q), logId) ==> AwaitsTip(PhaseOf(t, q), logId);
    }
  }

  lemma MoveKeepsTips(x: Setup, s: State, p: nat, logId: string)
    requires TipsInv(x, s, logId) && !TipOverlap(s, logId) && PhaseOf(s, p).Stored?
    ensures TipsInv(x, Next(x, s, MoveTip(p)), logId)
  {
    hide Links, LastTip, ChainOf, TipOverlap;
    var t, at := Next(x, s, MoveTip(p)), PhaseOf(s, p);
    assert HoldsTip(x, s, at, logId);
    if Holding(at, logId) {
      OnlyHolder(s, p, logId);
    }
    assert forall q :: q != p ==> PhaseOf(t, q) == PhaseOf(s, q);
    forall q ensures HoldsTip(x, t, PhaseOf(t, q), logId) {
      assert HoldsTip(x, s, PhaseOf(s, q), logId);
    }
    if Holding(at, logId) {
      match at.grade.value
      case Registered => assert t.tips == s.tips;
      case FirstSeen => assert t.tips == s.tips[logId := TipOf(at.job.cp.value)];
      case Witnessed => assert t.tips == s.tips[logId := TipOf(at.job.cp.value)];
    } else {
      assert TipOfLog(t.tips, logId) == TipOfLog(s.tips, logId);
      assert forall q :: AwaitsTip(PhaseOf(s, q), logId) ==> AwaitsTip(PhaseOf(t, q), logId);
    }
  }

  lemma NextKeepsTips(x: Setup, s: State, step: Step, logId: string)
    requires TipsInv(x, s, logId) && !TipOverlap(s, logId) && !LosesTip(s, step, logId)
    ensures TipsInv(x, Next(x, s, step), logId)
  {
    hide Links, LastTip, ChainOf, Verdict, TipOverlap;
    var t, at := Next(x, s, step), PhaseOf(s, step.p);
    if step.MoveTip? && at.Stored? {
      MoveKeepsTips(x, s, step.p, logId);
    } else if step.StoreReceipt? && at.Logged? {
      StoreKeepsTips(x, s, step.p, logId);
    } else {
      if step.PassGate? && at.Missed? && at.job.cp.Some? && Verdict(x, s.tips, at.job).Some? {
        GateLinks(x, s.tips, at.job);
      }
      if Holding(at, logId) {
        OnlyHolder(s, step.p, logId);
      }
      assert forall q :: q != step.p ==> PhaseOf(t, q) == PhaseOf(s, q);
      forall q ensures HoldsTip(x, t, PhaseOf(t, q), logId) {
        assert HoldsTip(x, s, PhaseOf(s, q), logId);
      }
      if forall q :: !AwaitsTip(PhaseOf(t, q), logId) {
        assert HoldsTip(x, s, at, logId);
        assert forall q :: q != step.p && AwaitsTip(PhaseOf(s, q), logId) ==> AwaitsTip(PhaseOf(t, q), logId);
      }
    }
  }

  /** Without either disturbance the acceptances of a log form one chain, as in one process, and the
      stored tip is its last once every receipt's tip is written. */
  lemma {:induction false} SeparateChain(x: Setup, steps: seq<Step>, logId: string)
    requires TipsUndisturbed(x, steps, logId)
    ensures TipsInv(x, Run(x, steps), logId)
  {
    hide TipsInv, TipOverlap, LosesTip, Next;
    assert steps[..|steps|] == steps;
    if steps == [] {
      InitialTips(x, logId);
    } else {
      var front := steps[..|steps| - 1];
      assert forall n :: 0 <= n <= |front| ==> front[..n] == steps[..n];
      SeparateChain(x, front, logId);
      assert !LosesTip(Run(x, steps[..|front|]), steps[|front|], logId);
      assert !TipOverlap(Run(x, steps[..|front|]), logId);
      NextKeepsTips(x, Run(x, front), steps[|front|], logId);
    }
  }

  lemma InitialTips(x: Setup, logId: string)
    ensures TipsInv(x, INITIAL, logId)
  {
  }

  /** Overlap is enough for a fork, under every policy: in every run, two instances abreast accept two
      checkpoints of one log against one tip. */
  lemma {:induction false} AbreastForks(x: Setup, steps: seq<Step>, p: nat, q: nat, j0: Job, j1: Job)
    requires p != q && Ready(x, Run(x, steps), p, j0) && Ready(x, Run(x, steps), q, j1)
    requires j0.cp.Some? && j1.cp.Some? && j0.cp.value.logId == j1.cp.value.logId
    ensures var s, t := Run(x, steps), Run(x, steps + (BothAppend(p, q, j0, j1) + [StoreReceipt(p), StoreReceipt(q)]));
      && Verdict(x, s.tips, j0).value.Some? && Verdict(x, s.tips, j1).value.Some?
      && t.accepted == s.accepted + [Earning(x, s, j0), Earning(x, s, j1)]
      && Earning(x, s, j0).before == Earning(x, s, j1).before
  {
    hide Run, Onward, Verdict, GateContinuity;
    var s, both, storing := Run(x, steps), BothAppend(p, q, j0, j1), [StoreReceipt(p), StoreReceipt(q)];
    GateLinks(x, s.tips, j0);
    GateLinks(x, s.tips, j1);
    RunOn(x, steps, both + storing);
    OnwardJoins(x, s, both, storing);
    BothAppended(x, s, p, q, j0, j1);
    OnwardTwo(x, Onward(x, s, both), StoreReceipt(p), StoreReceipt(q));
  }

  /** So is a failure between the cache write and the tip write, with no two instances ever at once: the
      receipt stands, the tip was never written, and the next checkpoint is accepted against the same
      one. */
  lemma {:induction false} LostTipForks(x: Setup, steps: seq<Step>, p: nat, q: nat, j0: Job, j1: Job)
    requires p != q && Ready(x, Run(x, steps), p, j0) && Ready(x, Run(x, steps), q, j1) && j0.key != j1.key
    requires j0.cp.Some? && j1.cp.Some? && j0.cp.value.logId == j1.cp.value.logId
    ensures var s, t := Run(x, steps), Run(x, steps + (Alone(p, j0) + [Fail(p)] + Alone(q, j1)));
      && Verdict(x, s.tips, j0).value.Some? && Verdict(x, s.tips, j1).value.Some?
      && t.accepted == s.accepted + [Earning(x, s, j0), Earning(x, s, j1)]
      && Earning(x, s, j0).before == Earning(x, s, j1).before && t.tips == s.tips
  {
    hide Run, Onward, Verdict, GateContinuity;
    var s, lost := Run(x, steps), Alone(p, j0) + [Fail(p)];
    GateLinks(x, s.tips, j0);
    GateLinks(x, s.tips, j1);
    RunOn(x, steps, lost + Alone(q, j1));
    OnwardJoins(x, s, lost, Alone(q, j1));
    OnwardJoins(x, s, Alone(p, j0), [Fail(p)]);
    OnwardOne(x, Onward(x, s, Alone(p, j0)), Fail(p));
    AloneStores(x, s, p, j0);
    AloneStores(x, Onward(x, s, lost), q, j1);
  }

  lemma OnwardOne(x: Setup, s: State, step: Step)
    ensures Onward(x, s, [step]) == Next(x, s, step)
  {
    hide Next;
  }

  /** Steps of one instance alone never make two hold a tip. */
  lemma {:induction false} OneAtATime(x: Setup, s: State, more: seq<Step>, p: nat, logId: string)
    requires forall i :: 0 <= i < |more| ==> more[i].p == p
    requires forall q :: q != p ==> !Holding(PhaseOf(s, q), logId)
    ensures forall q :: q != p ==> !Holding(PhaseOf(Onward(x, s, more), q), logId)
    ensures !TipOverlap(Onward(x, s, more), logId)
    decreases |more|
  {
    if more != [] {
      var t := Next(x, s, more[0]);
      assert forall q :: q != p ==> PhaseOf(t, q) == PhaseOf(s, q);
      hide Next;
      OneAtATime(x, t, more[1..], p, logId);
    }
  }

  /** In the run of LostTipForks indeed no two do, if none held one before. */
  lemma {:induction false} LostTipIsNoOverlap(x: Setup, steps: seq<Step>, p: nat, q: nat, j0: Job, j1: Job, n: nat,
                                              logId: string)
    requires p != q && (forall r :: !Holding(PhaseOf(Run(x, steps), r), logId))
    requires n <= |Alone(p, j0) + [Fail(p)] + Alone(q, j1)|
    ensures !TipOverlap(Run(x, steps + (Alone(p, j0) + [Fail(p)] + Alone(q, j1))[..n]), logId)
  {
    hide Run, Onward, TipOverlap;
    var s, lost, more := Run(x, steps), Alone(p, j0) + [Fail(p)], Alone(p, j0) + [Fail(p)] + Alone(q, j1);
    RunOn(x, steps, more[..n]);
    if n <= 5 {
      OneAtATime(x, s, more[..n], p, logId);
    } else {
      assert more[..n] == lost + Alone(q, j1)[..n - 5];
      OnwardJoins(x, s, lost, Alone(q, j1)[..n - 5]);
      OnwardJoins(x, s, Alone(p, j0), [Fail(p)]);
      OnwardOne(x, Onward(x, s, Alone(p, j0)), Fail(p));
      OneAtATime(x, s, Alone(p, j0), p, logId);
      forall r ensures !Holding(PhaseOf(Onward(x, s, lost), r), logId) {
        assert PhaseOf(Onward(x, s, lost), r) == if r == p then Free else PhaseOf(Onward(x, s, Alone(p, j0)), r);
      }
      OneAtATime(x, Onward(x, s, lost), Alone(q, j1)[..n - 5], q, logId);
    }
  }
}
