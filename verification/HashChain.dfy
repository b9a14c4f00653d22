// The hash chain over the transparency log (service.py): every entry names the head hash of its
// predecessor and signs its own head.
module HashChain {
  import opened Basics
  import opened Authority
  import MerkleTree

  datatype Entry = Entry(logIndex: int, loggedAt: int, kind: Kind, payloadHash: Digest, signature: Signature,
                         prevLogHash: Option<Digest>)
  {
    function Payload(): HeadPayload { HeadPayload(logIndex, payloadHash, prevLogHash) }
  }

  function EntryHead(a: Keys, e: Entry): Digest {
    a.headHash(e.Payload())
  }

  /** The head hash of a log, None for the empty one. */
  function LogHead(a: Keys, log: seq<Entry>): Option<Digest> {
    if log == [] then None else Some(EntryHead(a, log[|log| - 1]))
  }

  /** The entry _append_log builds on a log of the given size and head. */
  function NewEntry(a: Keys, kind: Kind, payload: Bytes, loggedAt: int, size: nat, head: Option<Digest>): Entry {
    var payloadHash := a.sha256(payload);
    Entry(size, loggedAt, kind, payloadHash, a.attest(HeadMessage(HeadPayload(size, payloadHash, head))), head)
  }

  /** Appending it to a log in memory. */
  function Appended(a: Keys, log: seq<Entry>, kind: Kind, payload: Bytes, loggedAt: int): seq<Entry> {
    log + [NewEntry(a, kind, payload, loggedAt, |log|, LogHead(a, log))]
  }

  predicate EntryLinked(a: Keys, log: seq<Entry>, i: nat)
    requires i < |log|
  {
    var e := log[i];
    && e.logIndex == i
    && e.prevLogHash == LogHead(a, log[..i])
    && a.verify(HeadMessage(e.Payload()), e.signature)
  }

  predicate Chained(a: Keys, log: seq<Entry>) {
    forall i :: 0 <= i < |log| ==> EntryLinked(a, log, i)
  }

  /** What the head of the entry before an index hashes to. */
  function HeadBefore(a: Keys, log: seq<Entry>, i: nat): Option<Digest>
    requires i <= |log|
  {
    if i == 0 then None
    else Some(a.headHash(HeadPayload(log[i - 1].logIndex, log[i - 1].payloadHash, log[i - 1].prevLogHash)))
  }

  /** verify_log: one pass over the entries accepts exactly those logs of which every index, link and
      signature holds. */
  method VerifyLog(a: Keys, log: seq<Entry>) returns (ok: bool)
    ensures ok == Chained(a, log)
    ensures ok <==> forall i :: 0 <= i < |log| ==>
      && log[i].logIndex == i && log[i].prevLogHash == HeadBefore(a, log, i)
      && a.verify(HeadMessage(HeadPayload(i, log[i].payloadHash, log[i].prevLogHash)), log[i].signature)
  {
    ChainedMeans(a, log);
    var prevHead, i := None, 0;
    while i < |log|
      invariant i <= |log| && prevHead == LogHead(a, log[..i])
      invariant forall j :: 0 <= j < i ==> EntryLinked(a, log, j)
    {
      var e := log[i];
      if e.logIndex != i || e.prevLogHash != prevHead || !a.verify(HeadMessage(e.Payload()), e.signature) {
        assert !EntryLinked(a, log, i);
        return false;
      }
      prevHead := Some(EntryHead(a, e));
      i := i + 1;
      assert log[..i] == log[..i - 1] + [e];
    }
    return true;
  }

  lemma ChainedMeans(a: Keys, log: seq<Entry>)
    ensures Chained(a, log) <==> forall i :: 0 <= i < |log| ==>
      && log[i].logIndex == i && log[i].prevLogHash == HeadBefore(a, log, i)
      && a.verify(HeadMessage(HeadPayload(i, log[i].payloadHash, log[i].prevLogHash)), log[i].signature)
  {
    forall i | 0 <= i < |log|
      ensures EntryLinked(a, log, i) <==>
        && log[i].logIndex == i && log[i].prevLogHash == HeadBefore(a, log, i)
        && a.verify(HeadMessage(HeadPayload(i, log[i].payloadHash, log[i].prevLogHash)), log[i].signature)
    {
      assert i > 0 ==> log[..i][i - 1] == log[i - 1];
    }
  }

  /** Every prefix of an accepted log is accepted. */
  lemma ChainedPrefix(a: Keys, log: seq<Entry>, n: nat)
    requires Chained(a, log) && n <= |log|
    ensures Chained(a, log[..n])
  {
    forall i | 0 <= i < n ensures EntryLinked(a, log[..n], i) {
      assert EntryLinked(a, log, i) && log[..n][..i] == log[..i];
    }
  }

  /** Appending keeps a log acceptable. */
  lemma {:induction false} ChainedAppend(a: Keys, log: seq<Entry>, kind: Kind, payload: Bytes, loggedAt: int)
    requires Sound(a) && Chained(a, log)
    ensures Chained(a, Appended(a, log, kind, payload, loggedAt))
  {
    var longer := Appended(a, log, kind, payload, loggedAt);
    forall i | 0 <= i < |longer| ensures EntryLinked(a, longer, i) {
      assert longer[..i] == log[..i];
      if i < |log| {
        assert EntryLinked(a, log, i);
      } else {
        assert log[..i] == log;
        var m := HeadMessage(longer[i].Payload());
        assert a.verify(m, a.attest(m));
      }
    }
  }

  /** What an entry commits to on the chain. */
  predicate SameContent(e: Entry, f: Entry) {
    e.logIndex == f.logIndex && e.payloadHash == f.payloadHash
  }

  predicate IsHeadCollision(a: Keys, p: HeadPayload, q: HeadPayload) {
    p != q && a.headHash(p) == a.headHash(q)
  }

  /** Tamper evidence, computed: from two accepted logs of one length and one final head hash that
      differ in some entry, two different head payloads with one hash. */
  function TamperEvidence(a: Keys, log1: seq<Entry>, log2: seq<Entry>): (c: (HeadPayload, HeadPayload))
    requires Chained(a, log1) && Chained(a, log2) && |log1| == |log2|
    requires LogHead(a, log1) == LogHead(a, log2)
    requires exists i :: 0 <= i < |log1| && !SameContent(log1[i], log2[i])
    ensures IsHeadCollision(a, c.0, c.1)
    decreases |log1|
  {
    var n := |log1| - 1;
    var e, f := log1[n], log2[n];
    if e.Payload() != f.Payload() then (e.Payload(), f.Payload())
    else
      assert EntryLinked(a, log1, n) && EntryLinked(a, log2, n);
      ChainedPrefix(a, log1, n);
      ChainedPrefix(a, log2, n);
      assert forall i :: 0 <= i < n ==> log1[..n][i] == log1[i] && log2[..n][i] == log2[i];
      TamperEvidence(a, log1[..n], log2[..n])
  }

  /** The RFC 6962 leaf hash of an entry (ct_leaf_hash). */
  function Leaf(a: Keys, e: Entry): Digest {
    a.leafHash(if e.kind == ScittStatement then RawHash(e.payloadHash)
                else EntryRecord(e.logIndex, e.kind, e.payloadHash, e.prevLogHash, e.loggedAt))
  }

  function Leaves(a: Keys, log: seq<Entry>): seq<Digest> {
    seq(|log|, i requires 0 <= i < |log| => Leaf(a, log[i]))
  }

  /** The tree hash of the first n entries of a log. */
  function RootAt(a: Keys, log: seq<Entry>, n: nat): Digest
    requires n <= |log|
  {
    MerkleTree.TreeRoot(a.tree, Leaves(a, log)[..n])
  }

  /** Growth of the log never changes the tree hash of its earlier sizes. */
  lemma RootAtStable(a: Keys, log: seq<Entry>, longer: seq<Entry>, n: nat)
    requires n <= |log| && log <= longer
    ensures RootAt(a, longer, n) == RootAt(a, log, n)
  {
    assert Leaves(a, longer)[..n] == Leaves(a, log)[..n];
  }

  /** A signed tree head of the log. */
  datatype TreeHead = TreeHead(treeSize: nat, rootHash: Digest, timestamp: int, signature: Signature)

  function SignedHead(a: Keys, treeSize: nat, rootHash: Digest, timestamp: int): TreeHead {
    TreeHead(treeSize, rootHash, timestamp, a.attest(SthMessage(treeSize, rootHash, timestamp)))
  }

  /** The order heads are compared in: by size, then by time. */
  predicate Precedes(h: TreeHead, k: TreeHead) {
    h.treeSize < k.treeSize || (h.treeSize == k.treeSize && h.timestamp < k.timestamp)
  }

  /** The compare-and-swap on the stored head. */
  function Swap(stored: Option<TreeHead>, h: TreeHead): Option<TreeHead> {
    if stored.None? || Precedes(stored.value, h) then Some(h) else stored
  }

  /** The history keeps the first head of each size. */
  function Retain(history: map<nat, TreeHead>, h: TreeHead): map<nat, TreeHead> {
    if h.treeSize in history then history else history[h.treeSize := h]
  }

  /** A head that belongs to the log: signed, and the tree hash of the log's first entries. */
  ghost predicate HeadOk(a: Keys, log: seq<Entry>, h: TreeHead) {
    && h.treeSize <= |log| && h.rootHash == RootAt(a, log, h.treeSize)
    && a.verify(SthMessage(h.treeSize, h.rootHash, h.timestamp), h.signature)
  }

  lemma HeadOkGrows(a: Keys, log: seq<Entry>, longer: seq<Entry>, h: TreeHead)
    requires HeadOk(a, log, h) && log <= longer
    ensures HeadOk(a, longer, h)
  {
    RootAtStable(a, log, longer, h.treeSize);
  }

  lemma SignedHeadOk(a: Keys, log: seq<Entry>, treeSize: nat, timestamp: int)
    requires Sound(a) && treeSize <= |log|
    ensures var h := SignedHead(a, treeSize, RootAt(a, log, treeSize), timestamp);
      HeadOk(a, log, h) && h.treeSize == treeSize && h.timestamp == timestamp
  {
    var m := SthMessage(treeSize, RootAt(a, log, treeSize), timestamp);
    assert a.verify(m, a.attest(m));
  }
}
