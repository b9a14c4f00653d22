// The RFC 6962 Merkle tree (section 2.1) as ct.py builds it, top down, and the level-by-level
// view of the same tree that the verifying loops and the tenant tree work with.
module MerkleTree {
  import opened Basics

  /** A hash scheme for trees: the digest of the empty tree, the length of a digest, and the hash of
      an inner node's input, the digests of its two children one after the other. */
  datatype TreeHash = TreeHash(empty: Digest, width: nat, hash: Bytes -> Digest)

  function Node(h: TreeHash, left: Digest, right: Digest): Digest {
    h.hash(left.bytes + right.bytes)
  }

  /** The one thing assumed of a hash, and only where a proof must bind: its length. */
  ghost predicate FixedWidth(h: TreeHash) {
    forall input :: |h.hash(input).bytes| == h.width
  }

  predicate IsWide(h: TreeHash, d: Digest) {
    |d.bytes| == h.width
  }

  predicate AllWide(h: TreeHash, ds: seq<Digest>) {
    forall i :: 0 <= i < |ds| ==> IsWide(h, ds[i])
  }

  /** Two hash inputs. Binding results name two different ones with one hash. */
  datatype Collision = Collision(input0: Bytes, input1: Bytes)

  predicate IsCollision(h: TreeHash, c: Collision) {
    c.input0 != c.input1 && h.hash(c.input0) == h.hash(c.input1)
  }

  /** The inputs of two nodes. */
  function NodeInputs(left0: Digest, right0: Digest, left1: Digest, right1: Digest): Collision {
    Collision(left0.bytes + right0.bytes, left1.bytes + right1.bytes)
  }

  /** One input has one reading, once either half has the same length in both. */
  lemma InputSplits(left0: Digest, right0: Digest, left1: Digest, right1: Digest)
    requires left0.bytes + right0.bytes == left1.bytes + right1.bytes
    requires |left0.bytes| == |left1.bytes| || |right0.bytes| == |right1.bytes|
    ensures left0 == left1 && right0 == right1
  {
    var n := |left0.bytes|;
    var input0, input1 := left0.bytes + right0.bytes, left1.bytes + right1.bytes;
    assert |left1.bytes| == n;
    assert left0.bytes == input0[..n] && left1.bytes == input1[..n];
    assert right0.bytes == input0[n..] && right1.bytes == input1[n..];
  }

  /** Two nodes with one hash of which a half differs, and has the same length in both, have
      different inputs. */
  lemma HalvesCollide(h: TreeHash, left0: Digest, right0: Digest, left1: Digest, right1: Digest)
    requires Node(h, left0, right0) == Node(h, left1, right1)
    requires left0 != left1 || right0 != right1
    requires |left0.bytes| == |left1.bytes| || |right0.bytes| == |right1.bytes|
    ensures IsCollision(h, NodeInputs(left0, right0, left1, right1))
  {
    if left0.bytes + right0.bytes == left1.bytes + right1.bytes {
      InputSplits(left0, right0, left1, right1);
    }
  }

  /** Size of the left subtree of a tree with n > 1 leaves. */
  function Split(n: nat): (k: nat)
    requires n > 1
    ensures 0 < k < n <= 2 * k
  {
    if n == 2 then 1 else 2 * Split((n + 1) / 2)
  }

  /** Going up one level halves the split point. */
  lemma SplitHalves(n: nat)
    requires n > 2
    ensures Split(n) % 2 == 0 && Split((n + 1) / 2) == Split(n) / 2
  {
  }

  lemma {:induction false} SplitIsPowerBelow(n: nat, e: nat)
    requires Pow2(e) < n <= Pow2(e + 1)
    ensures Split(n) == Pow2(e)
  {
    if e > 0 {
      SplitIsPowerBelow((n + 1) / 2, e - 1);
    }
  }

  /** The doubling loop: the largest power of two strictly below n. */
  method LargestPowerOfTwoBelow(n: int) returns (k: nat)
    ensures n > 1 ==> k == Split(n)
    ensures n > 1 ==> exists e: nat :: k == Pow2(e) && k < n <= Pow2(e + 1)
    ensures n <= 1 ==> k == 1
  {
    k := 1;
    ghost var e: nat := 0;
    while 2 * k < n
      invariant k == Pow2(e)
      invariant k == 1 || k < n
      decreases n - k
    {
      k := 2 * k;
      e := e + 1;
    }
    if n > 1 {
      assert n <= Pow2(e + 1);
      SplitIsPowerBelow(n, e);
    }
  }

  /** Merkle tree hash over leaf hashes (RFC 6962 section 2.1). */
  function TreeRoot(h: TreeHash, leaves: seq<Digest>): Digest {
    if |leaves| == 0 then h.empty
    else if |leaves| == 1 then leaves[0]
    else
      var k := Split(|leaves|);
      Node(h, TreeRoot(h, leaves[..k]), TreeRoot(h, leaves[k..]))
  }

  /** The tree hash as section 2.1 of RFC 6962 has it: the empty tree, a leaf, and otherwise the hash of
      the left part, of 2^e leaves with n between 2^e and 2^(e+1), before the right one. */
  lemma {:induction false} TreeRootIsRfc6962(h: TreeHash, leaves: seq<Digest>, e: nat)
    ensures leaves == [] ==> TreeRoot(h, leaves) == h.empty
    ensures |leaves| == 1 ==> TreeRoot(h, leaves) == leaves[0]
    ensures Pow2(e) < |leaves| <= Pow2(e + 1) ==>
      TreeRoot(h, leaves) == h.hash(TreeRoot(h, leaves[..Pow2(e)]).bytes + TreeRoot(h, leaves[Pow2(e)..]).bytes)
  {
    if Pow2(e) < |leaves| <= Pow2(e + 1) {
      SplitIsPowerBelow(|leaves|, e);
    }
  }

  /** One level up: neighbours are paired, an odd last node is promoted unchanged. */
  function PairUp(h: TreeHash, level: seq<Digest>): (up: seq<Digest>)
    ensures |up| == (|level| + 1) / 2
  {
    seq((|level| + 1) / 2, i requires 0 <= i < (|level| + 1) / 2 => Parent(h, level, i))
  }

  function Parent(h: TreeHash, level: seq<Digest>, i: nat): Digest
    requires 2 * i < |level|
  {
    if 2 * i + 1 < |level| then Node(h, level[2 * i], level[2 * i + 1]) else level[2 * i]
  }

  lemma PairUpSplits(h: TreeHash, level: seq<Digest>, k: nat)
    requires k <= |level| && k % 2 == 0
    ensures PairUp(h, level) == PairUp(h, level[..k]) + PairUp(h, level[k..])
    ensures PairUp(h, level)[..k / 2] == PairUp(h, level[..k])
    ensures PairUp(h, level)[k / 2..] == PairUp(h, level[k..])
  {
    var up, left, right := PairUp(h, level), PairUp(h, level[..k]), PairUp(h, level[k..]);
    forall i | 0 <= i < |up| ensures up[i] == (left + right)[i] {
      if i < k / 2 {
        assert left[i] == Parent(h, level[..k], i);
      } else {
        assert right[i - k / 2] == Parent(h, level[k..], i - k / 2);
      }
    }
    assert up == left + right;
  }

  /** The bridge between the two views: going up one level does not change the tree hash. */
  lemma {:induction false} PairUpKeepsRoot(h: TreeHash, level: seq<Digest>)
    requires |level| > 0
    ensures TreeRoot(h, PairUp(h, level)) == TreeRoot(h, level)
    decreases |level|
  {
    var n, up := |level|, PairUp(h, level);
    if n == 1 {
      assert up == level;
    } else if n > 2 {
      var k := Split(n);
      assert Split(|up|) == k / 2;
      PairUpSplits(h, level, k);
      PairUpKeepsRoot(h, level[..k]);
      PairUpKeepsRoot(h, level[k..]);
    }
  }

  lemma NodeIsWide(h: TreeHash, left: Digest, right: Digest)
    requires FixedWidth(h)
    ensures IsWide(h, Node(h, left, right))
  {
  }

  lemma PairUpIsWide(h: TreeHash, level: seq<Digest>)
    requires FixedWidth(h) && AllWide(h, level)
    ensures AllWide(h, PairUp(h, level))
  {
  }

  lemma RootIsWide(h: TreeHash, leaves: seq<Digest>)
    requires FixedWidth(h) && AllWide(h, leaves) && leaves != []
    ensures IsWide(h, TreeRoot(h, leaves))
  {
  }
}
