// The MMR root of a checkpoint from its peak list (checkpoint_cose.py).
module PeakBagging {
  import opened Basics
  import opened MerkleTree

  const DIGEST_SIZE: nat := 32

  function Zeros(n: nat): (b: Bytes)
    ensures |b| == n
  {
    if n == 0 then [] else [0] + Zeros(n - 1)
  }

  /** 32 zero bytes, the root of an empty MMR. */
  const ZERO_DIGEST := Digest(Zeros(DIGEST_SIZE))

  /** The right-to-left fold: each peak is hashed under everything to its right. */
  function Bag(h: TreeHash, peaks: seq<Digest>): Digest {
    if peaks == [] then ZERO_DIGEST
    else if |peaks| == 1 then peaks[0]
    else Node(h, Bag(h, peaks[1..]), peaks[0])
  }

  lemma {:induction false} BagMergesLastTwo(h: TreeHash, front: seq<Digest>, left: Digest, right: Digest)
    ensures Bag(h, front + [left, right]) == Bag(h, front + [Node(h, right, left)])
  {
    if front == [] {
      assert front + [left, right] == [left, right] && [left, right][1..] == [right];
    } else {
      BagMergesLastTwo(h, front[1..], left, right);
      assert (front + [left, right])[1..] == front[1..] + [left, right];
      assert (front + [Node(h, right, left)])[1..] == front[1..] + [Node(h, right, left)];
    }
  }

  /** The bag of the peaks, from the hash alone: 32 zero bytes for none, a single peak as it is, and
      otherwise the last two are hashed, the right one first, and count as one. */
  lemma {:induction false} BagsRightToLeft(h: TreeHash, front: seq<Digest>, left: Digest, right: Digest)
    ensures |Bag(h, []).bytes| == 32 && forall i :: 0 <= i < 32 ==> Bag(h, []).bytes[i] == 0
    ensures Bag(h, [right]) == right
    ensures Bag(h, front + [left, right]) == Bag(h, front + [h.hash(right.bytes + left.bytes)])
  {
    BagMergesLastTwo(h, front, left, right);
    hide Bag;
    assert Bag(h, []) == ZERO_DIGEST && Bag(h, [right]) == right by { ShortBags(h, right); }
    AllZero(DIGEST_SIZE);
  }

  lemma ShortBags(h: TreeHash, peak: Digest)
    ensures Bag(h, []) == ZERO_DIGEST && Bag(h, [peak]) == peak
  {
  }

  lemma {:induction false} AllZero(n: nat)
    ensures forall i :: 0 <= i < n ==> Zeros(n)[i] == 0
  {
    if n > 0 {
      AllZero(n - 1);
    }
  }

  /** _root_from_peaks: the pop/pop/append loop ends with one digest, the fold of the peaks. */
  method RootFromPeaks(h: TreeHash, peaks: seq<Digest>) returns (root: Digest)
    ensures root == Bag(h, peaks)
  {
    if peaks == [] {
      return ZERO_DIGEST;
    }
    var hashes := peaks;
    while |hashes| > 1
      invariant |hashes| > 0 && Bag(h, hashes) == Bag(h, peaks)
      decreases |hashes|
    {
      var n := |hashes|;
      var right, left, front := hashes[n - 1], hashes[n - 2], hashes[..n - 2];
      assert hashes == front + [left, right];
      BagMergesLastTwo(h, front, left, right);
      hashes := front + [Node(h, right, left)];
    }
    return hashes[0];
  }

  /** An empty list of peaks bags like one zero digest. */
  function OrZero(peaks: seq<Digest>): (p: seq<Digest>)
    ensures p != [] && (peaks != [] ==> p == peaks)
  {
    if peaks == [] then [ZERO_DIGEST] else peaks
  }

  /** The longer list b has the peaks of a, but for a's last one, which is the bag of b's rest. */
  predicate Refines(h: TreeHash, a: seq<Digest>, b: seq<Digest>) {
    var n := |a| - 1;
    0 <= n < |b| && a[..n] == b[..n] && a[n] == Bag(h, b[n..])
  }

  /** Such lists have one root, so a root alone does not fix the number of peaks. */
  lemma {:induction false} RefinedBagsAgree(h: TreeHash, a: seq<Digest>, b: seq<Digest>)
    requires Refines(h, a, b)
    ensures Bag(h, a) == Bag(h, b)
  {
    if |a| == 1 {
      assert b[0..] == b;
    } else {
      var n := |a| - 1;
      assert a[1..][..n - 1] == a[..n][1..] && b[1..][..n - 1] == b[..n][1..] && b[1..][n - 1..] == b[n..];
      assert a[0] == a[..n][0] && b[0] == b[..n][0];
      RefinedBagsAgree(h, a[1..], b[1..]);
    }
  }

  lemma BagIsWide(h: TreeHash, peaks: seq<Digest>)
    requires FixedWidth(h) && AllWide(h, peaks) && peaks != []
    ensures IsWide(h, Bag(h, peaks))
  {
  }

  /** And no others have: from two non-empty lists of digests with one root of which the longer does
      not refine the shorter, two different hash inputs with one hash. */
  function BagCollision(h: TreeHash, a: seq<Digest>, b: seq<Digest>): (c: Collision)
    requires FixedWidth(h) && AllWide(h, a) && AllWide(h, b)
    requires 0 < |a| <= |b| && !Refines(h, a, b) && Bag(h, a) == Bag(h, b)
    ensures IsCollision(h, c)
  {
    assert b[0..] == b;
    var c := NodeInputs(Bag(h, a[1..]), a[0], Bag(h, b[1..]), b[0]);
    if c.input0 != c.input1 then c
    else
      InputSplits(Bag(h, a[1..]), a[0], Bag(h, b[1..]), b[0]);
      NotRefinedTail(h, a, b);
      BagCollision(h, a[1..], b[1..])
  }

  lemma NotRefinedTail(h: TreeHash, a: seq<Digest>, b: seq<Digest>)
    requires 1 < |a| <= |b| && a[0] == b[0] && !Refines(h, a, b)
    ensures !Refines(h, a[1..], b[1..])
  {
    var n := |a| - 1;
    assert a[..n] == [a[0]] + a[1..][..n - 1] && b[..n] == [b[0]] + b[1..][..n - 1] && b[1..][n - 1..] == b[n..];
  }

  /** Among lists of one length bagging binds every peak: two different ones with one root give two
      different hash inputs with one hash. */
  function SameLengthCollision(h: TreeHash, a: seq<Digest>, b: seq<Digest>): (c: Collision)
    requires FixedWidth(h) && AllWide(h, a) && AllWide(h, b)
    requires |a| == |b| && a != b && Bag(h, a) == Bag(h, b)
    ensures IsCollision(h, c)
  {
    assert a != [] ==> a == a[..|a| - 1] + [a[|a| - 1]] && b == b[..|a| - 1] + [b[|a| - 1]];
    BagCollision(h, a, b)
  }

  /** One list of peaks has some last peaks of the other bagged into one; no peaks stand for zeros. */
  predicate Regrouped(h: TreeHash, p: seq<Digest>, q: seq<Digest>) {
    Refines(h, OrZero(p), OrZero(q)) || Refines(h, OrZero(q), OrZero(p))
  }

  lemma {:induction false} RegroupedBagsAgree(h: TreeHash, p: seq<Digest>, q: seq<Digest>)
    requires Regrouped(h, p, q)
    ensures Bag(h, p) == Bag(h, q)
  {
    if Refines(h, OrZero(p), OrZero(q)) {
      RefinedBagsAgree(h, OrZero(p), OrZero(q));
    } else {
      RefinedBagsAgree(h, OrZero(q), OrZero(p));
    }
  }
}
