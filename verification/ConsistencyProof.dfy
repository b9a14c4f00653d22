// Consistency proofs of the transparency log: RFC 6962 section 2.1.2 generation, RFC 9162 section
// 2.1.4.2 verification.
module ConsistencyProof {
  import opened Basics
  import opened MerkleTree
  import opened InclusionProof

  // ---------------------------------------------------------------- generation

  /** SUBPROOF(m, D[0:n], b) of RFC 6962 section 2.1.2. */
  function SubProof(h: TreeHash, m: nat, leaves: seq<Digest>, fromOldRoot: bool): seq<Digest>
    requires 0 < m <= |leaves|
    decreases |leaves|
  {
    if m == |leaves| then (if fromOldRoot then [] else [TreeRoot(h, leaves)])
    else
      var k := Split(|leaves|);
      if m <= k then SubProof(h, m, leaves[..k], fromOldRoot) + [TreeRoot(h, leaves[k..])]
      else SubProof(h, m - k, leaves[k..], false) + [TreeRoot(h, leaves[..k])]
  }

  /** consistency_proof: sizes out of range are an error. */
  function Generate(h: TreeHash, first: int, second: int, leaves: seq<Digest>): (r: Result<seq<Digest>, string>)
    ensures r.Ok? <==> 0 < first <= second <= |leaves|
  {
    if !(0 < first <= second <= |leaves|) then Err("require 0 < first <= second <= len(leaves)")
    else if first == second then Ok([])
    else Ok(SubProof(h, first, leaves[..second], true))
  }

  // ---------------------------------------------------------------- verification

  /** Bitwise and of two naturals. */
  function BitAnd(a: nat, b: nat): nat {
    if a == 0 || b == 0 then 0
    else 2 * BitAnd(a / 2, b / 2) + (if a % 2 == 1 && b % 2 == 1 then 1 else 0)
  }

  predicate IsPowerOfTwo(n: int) {
    n > 0 && BitAnd(n, n - 1) == 0
  }

  /** Steps up while the node is a right child: the boundary of the old tree is a complete subtree. */
  function SkipComplete(fn: nat, sn: nat): (r: (nat, nat))
    ensures r.0 % 2 == 0 && (fn < sn ==> r.0 <= r.1)
  {
    if fn % 2 == 1 then SkipComplete(fn / 2, sn / 2) else (fn, sn)
  }

  /** One level of the verifying loop: the next old and new digests and the rest of the proof. A
      last node with no right neighbour in either tree is promoted and uses no proof hash. */
  function StepUp(h: TreeHash, fn: nat, sn: nat, fr: Digest, sr: Digest, proof: seq<Digest>)
    : Option<(Digest, Digest, seq<Digest>)>
  {
    if fn % 2 == 0 && fn == sn then Some((fr, sr, proof))
    else if proof == [] then None
    else if fn % 2 == 1 then Some((Node(h, proof[0], fr), Node(h, proof[0], sr), proof[1..]))
    else Some((fr, Node(h, sr, proof[0]), proof[1..]))
  }

  /** The old and the new root reached together, one level at a time. */
  function ClimbPair(h: TreeHash, fn: nat, sn: nat, fr: Digest, sr: Digest, proof: seq<Digest>)
    : Option<(Digest, Digest)>
    decreases sn
  {
    if sn == 0 then (if proof == [] then Some((fr, sr)) else None)
    else match StepUp(h, fn, sn, fr, sr, proof)
      case None => None
      case Some((fr', sr', rest)) => ClimbPair(h, fn / 2, sn / 2, fr', sr', rest)
  }

  predicate Accepts(h: TreeHash, first: int, second: int, root1: Digest, root2: Digest, proof: seq<Digest>) {
    && 0 <= first <= second
    && if first == second then root1 == root2 && proof == []
       else if first == 0 then proof == []
       else AcceptsProper(h, first, second, root1, root2, if IsPowerOfTwo(first) then [root1] + proof else proof)
  }

  predicate AcceptsProper(h: TreeHash, first: nat, second: nat, root1: Digest, root2: Digest, proof: seq<Digest>)
    requires 0 < first < second
  {
    var (fn, sn) := SkipComplete(first - 1, second - 1);
    proof != [] && ClimbPair(h, fn, sn, proof[0], proof[0], proof[1..]) == Some((root1, root2))
  }

  /** How many hashes a proof has: those of the boundary node's path, and the node itself unless it is
      the whole old tree. */
  function ProofLength(first: nat, second: nat): nat
    requires 0 < first < second
  {
    if first % 2 == 0 then ProofLength(first / 2, (second + 1) / 2)
    else (if first == 1 then 0 else 1) + PathLength(first - 1, second)
  }

  lemma {:induction false} ClimbPairLength(h: TreeHash, fn: nat, sn: nat, fr: Digest, sr: Digest, proof: seq<Digest>)
    requires fn <= sn && ClimbPair(h, fn, sn, fr, sr, proof).Some?
    ensures |proof| == PathLength(fn, sn + 1)
    decreases sn
  {
    hide Node;
    if sn > 0 {
      assert (sn + 2) / 2 == sn / 2 + 1;
      var (fr', sr', rest) := StepUp(h, fn, sn, fr, sr, proof).value;
      ClimbPairLength(h, fn / 2, sn / 2, fr', sr', rest);
    }
  }

  lemma {:induction false} AcceptedLength(h: TreeHash, first: nat, second: nat, root1: Digest, root2: Digest,
                                          proof: seq<Digest>)
    requires 0 < first < second && Accepts(h, first, second, root1, root2, proof)
    ensures |proof| == ProofLength(first, second)
  {
    hide ClimbPair;
    if first % 2 == 0 {
      EvenPowerOfTwo(first);
      AcceptanceLifts(h, first, second, root1, root2, if IsPowerOfTwo(first) then [root1] + proof else proof);
      AcceptedLength(h, first / 2, (second + 1) / 2, root1, root2, proof);
    } else {
      OddPowerOfTwo(first);
      var full := if first == 1 then [root1] + proof else proof;
      ClimbPairLength(h, first - 1, second - 1, full[0], full[0], full[1..]);
    }
  }

  /** verify_consistency_proof: the shifting loops decide exactly Accepts. Sizes that shrink are refused,
      equal sizes ask for equal roots and no proof, and a proof between a non-empty tree and a larger
      one must have the generated length. */
  method VerifyConsistencyProof(h: TreeHash, first: int, second: int, root1: Digest, root2: Digest,
                                givenProof: seq<Digest>)
    returns (ok: bool)
    ensures ok == Accepts(h, first, second, root1, root2, givenProof)
    ensures ok ==> 0 <= first <= second
    ensures 0 <= first == second ==> (ok <==> root1 == root2 && givenProof == [])
    ensures 0 == first < second ==> (ok <==> givenProof == [])
    ensures ok && 0 < first < second ==> |givenProof| == ProofLength(first, second)
  {
    if 0 < first < second && Accepts(h, first, second, root1, root2, givenProof) {
      AcceptedLength(h, first, second, root1, root2, givenProof);
    }
    if first > second || first < 0 || second < 0 {
      return false;
    }
    if first == second {
      return root1 == root2 && givenProof == [];
    }
    if first == 0 {
      return givenProof == [];
    }
    var proof := givenProof;
    if IsPowerOfTwo(first) {
      proof := [root1] + proof;
    }
    var fn: nat, sn: nat := first - 1, second - 1;
    while fn % 2 == 1
      invariant fn < sn
      invariant SkipComplete(first - 1, second - 1) == SkipComplete(fn, sn)
      decreases fn
    {
      fn, sn := fn / 2, sn / 2;
    }
    if proof == [] {
      return false;
    }
    var fr, sr, idx := proof[0], proof[0], 1;
    ghost var goal := ClimbPair(h, fn, sn, fr, sr, proof[1..]);
    while sn > 0
      invariant 0 <= fn <= sn && 1 <= idx <= |proof|
      invariant goal == ClimbPair(h, fn, sn, fr, sr, proof[idx..])
      decreases sn
    {
      if idx >= |proof| {
        ShortProofFails(h, fn, sn, fr, sr);
        return false;
      }
      var c := proof[idx];
      assert proof[idx..][0] == c && proof[idx..][1..] == proof[idx + 1..];
      if fn % 2 == 1 || fn == sn {
        ghost var sn0, fn0 := sn, fn;
        while fn % 2 == 0 && fn != 0
          invariant 0 <= fn <= sn <= sn0
          invariant fn0 == sn0 ==> fn == sn > 0
          invariant fn0 != sn0 ==> fn == fn0 && sn == sn0
          invariant goal == ClimbPair(h, fn, sn, fr, sr, proof[idx..])
          decreases fn
        {
          fn, sn := fn / 2, sn / 2;
        }
        fr, sr := Node(h, c, fr), Node(h, c, sr);
      } else {
        sr := Node(h, sr, c);
      }
      idx := idx + 1;
      fn, sn := fn / 2, sn / 2;
    }
    return idx == |proof| && fr == root1 && sr == root2;
  }

  lemma {:induction false} ShortProofFails(h: TreeHash, fn: nat, sn: nat, fr: Digest, sr: Digest)
    requires fn <= sn && sn > 0
    ensures ClimbPair(h, fn, sn, fr, sr, []) == None
    decreases sn
  {
    if fn % 2 == 0 && fn == sn {
      ShortProofFails(h, fn / 2, sn / 2, fr, sr);
    }
  }

  /** The n & (n - 1) test is exact. */
  lemma {:induction false} PowerOfTwoTest(n: nat)
    ensures IsPowerOfTwo(n) <==> exists e: nat :: n == Pow2(e)
  {
    if n == 1 {
      assert n == Pow2(0);
    } else if n > 1 {
      if e: nat :| n == Pow2(e) {
        assert e > 0 && n == 2 * Pow2(e - 1);
        assert n / 2 == Pow2(e - 1);
      }
      if n % 2 == 0 {
        PowerOfTwoTest(n / 2);
        EvenPowerOfTwo(n);
        if IsPowerOfTwo(n) {
          var e: nat :| n / 2 == Pow2(e);
          assert n == Pow2(e + 1);
        }
      } else {
        AndSelf(n / 2);
      }
    }
  }

  lemma EvenPowerOfTwo(m: nat)
    requires m > 0 && m % 2 == 0
    ensures IsPowerOfTwo(m) == IsPowerOfTwo(m / 2)
  {
    assert BitAnd(m, m - 1) == 2 * BitAnd(m / 2, m / 2 - 1);
  }

  lemma OddPowerOfTwo(m: nat)
    requires m % 2 == 1
    ensures IsPowerOfTwo(m) <==> m == 1
  {
    if m > 1 {
      AndSelf(m / 2);
    }
  }

  lemma {:induction false} AndSelf(m: nat)
    ensures BitAnd(m, m) == m
  {
    if m > 0 {
      AndSelf(m / 2);
    }
  }

  // ---------------------------------------------------------------- completeness

  /** A complete boundary moves up a level without changing the proof. */
  lemma {:induction false} EvenSubProofLifts(h: TreeHash, m: nat, level: seq<Digest>, b: bool)
    requires 0 < m <= |level| && m % 2 == 0
    ensures SubProof(h, m, level, b) == SubProof(h, m / 2, PairUp(h, level), b)
    decreases |level|
  {
    hide TreeRoot, Parent, PairUp, SubProof, Split;
    if m == |level| {
      WholeSubProofLifts(h, level, b);
    } else {
      SplitHalves(|level|);
      var k := Split(|level|);
      SubProofsSplit(h, m, level, b);
      if m <= k {
        EvenSubProofLifts(h, m, level[..k], b);
      } else {
        EvenSubProofLifts(h, m - k, level[k..], false);
      }
    }
  }

  lemma WholeSubProofLifts(h: TreeHash, level: seq<Digest>, b: bool)
    requires level != [] && |level| % 2 == 0
    ensures SubProof(h, |level|, level, b) == SubProof(h, |level| / 2, PairUp(h, level), b)
  {
    PairUpKeepsRoot(h, level);
  }

  /** The proof in a level and in the one above it split at the same subtree boundary. */
  lemma SubProofsSplit(h: TreeHash, m: nat, level: seq<Digest>, b: bool)
    requires 0 < m < |level| && m % 2 == 0
    ensures var k, up := Split(|level|), PairUp(h, level);
      if m <= k then
        && SubProof(h, m, level, b) == SubProof(h, m, level[..k], b) + [TreeRoot(h, level[k..])]
        && SubProof(h, m / 2, up, b) == SubProof(h, m / 2, PairUp(h, level[..k]), b) + [TreeRoot(h, level[k..])]
      else
        && SubProof(h, m, level, b) == SubProof(h, m - k, level[k..], false) + [TreeRoot(h, level[..k])]
        && SubProof(h, m / 2, up, b)
          == SubProof(h, (m - k) / 2, PairUp(h, level[k..]), false) + [TreeRoot(h, level[..k])]
  {
    hide TreeRoot, Parent, PairUp, Split;
    var k, up := Split(|level|), PairUp(h, level);
    SplitHalves(|level|);
    PairUpSplits(h, level, k);
    PairUpKeepsRoot(h, level[..k]);
    PairUpKeepsRoot(h, level[k..]);
  }

  /** At an incomplete boundary the proof is the boundary node followed by its audit path. */
  lemma {:induction false} OddSubProofIsAuditPath(h: TreeHash, m: nat, level: seq<Digest>)
    requires 0 < m <= |level| && m % 2 == 1 && (m < |level| || m == 1)
    ensures SubProof(h, m, level, false) == [level[m - 1]] + AuditPath(h, m - 1, level)
    decreases |level|
  {
    hide TreeRoot, SubProof, AuditPath, Split;
    if |level| == 1 {
      SingleLeafProofs(h, level);
    } else {
      ProofsUnfold(h, m, level, false);
      if |level| > 2 { SplitHalves(|level|); }
      var k, node := Split(|level|), level[m - 1];
      if m <= k {
        OddSubProofIsAuditPath(h, m, level[..k]);
        TopLast(node, AuditPath(h, m - 1, level[..k]), TreeRoot(h, level[k..]));
      } else {
        OddSubProofIsAuditPath(h, m - k, level[k..]);
        TopLast(node, AuditPath(h, m - k - 1, level[k..]), TreeRoot(h, level[..k]));
      }
    }
  }

  lemma SingleLeafProofs(h: TreeHash, level: seq<Digest>)
    requires |level| == 1
    ensures AuditPath(h, 0, level) == [] && SubProof(h, 1, level, false) == level && SubProof(h, 1, level, true) == []
  {
  }

  lemma TopLast(node: Digest, path: seq<Digest>, top: Digest)
    ensures [node] + path + [top] == [node] + (path + [top])
  {
  }

  /** From the old root, the boundary node is left out exactly when it is the old root. */
  lemma {:induction false} OddSubProofFromRoot(h: TreeHash, m: nat, level: seq<Digest>)
    requires 0 < m < |level| && m % 2 == 1
    ensures SubProof(h, m, level, true) == if m == 1 then AuditPath(h, 0, level) else SubProof(h, m, level, false)
    decreases |level|
  {
    hide TreeRoot, SubProof, AuditPath, Split;
    ProofsUnfold(h, m, level, true);
    ProofsUnfold(h, m, level, false);
    var k := Split(|level|);
    if |level| > 2 { SplitHalves(|level|); }
    if k == 1 {
      SingleLeafProofs(h, level[..1]);
    } else if m <= k {
      OddSubProofFromRoot(h, m, level[..k]);
    }
  }

  /** One unfolding of both generators at one split. */
  lemma ProofsUnfold(h: TreeHash, m: nat, level: seq<Digest>, b: bool)
    requires 0 < m < |level|
    ensures var k := Split(|level|);
      if m <= k then
        && SubProof(h, m, level, b) == SubProof(h, m, level[..k], b) + [TreeRoot(h, level[k..])]
        && AuditPath(h, m - 1, level) == AuditPath(h, m - 1, level[..k]) + [TreeRoot(h, level[k..])]
      else
        && SubProof(h, m, level, b) == SubProof(h, m - k, level[k..], false) + [TreeRoot(h, level[..k])]
        && AuditPath(h, m - 1, level) == AuditPath(h, m - k - 1, level[k..]) + [TreeRoot(h, level[..k])]
  {
    hide TreeRoot;
  }

  lemma PairClimbOneLevel(h: TreeHash, fn: nat, prior: seq<Digest>, level: seq<Digest>, rest: seq<Digest>)
    requires |prior| == fn + 1 <= |level| && |level| > 1 && prior[..fn] == level[..fn]
    ensures PairUp(h, prior)[..fn / 2] == PairUp(h, level)[..fn / 2]
    ensures ClimbPair(h, fn, |level| - 1, prior[fn], level[fn], Sibling(level, fn) + rest)
         == ClimbPair(h, fn / 2, |PairUp(h, level)| - 1, PairUp(h, prior)[fn / 2], PairUp(h, level)[fn / 2], rest)
  {
    var path, priorUp, up := Sibling(level, fn) + rest, PairUp(h, prior), PairUp(h, level);
    assert priorUp[fn / 2] == Parent(h, prior, fn / 2) && up[fn / 2] == Parent(h, level, fn / 2);
    forall i | 0 <= i < fn / 2 ensures priorUp[i] == up[i] {
      assert priorUp[i] == Parent(h, prior, i) && up[i] == Parent(h, level, i);
      assert prior[2 * i] == prior[..fn][2 * i] && prior[2 * i + 1] == prior[..fn][2 * i + 1];
    }
    if Sibling(level, fn) == [] {
      assert path == rest;
    } else {
      assert path[0] == Sibling(level, fn)[0] && path[1..] == rest;
      if fn % 2 == 1 {
        assert prior[fn - 1] == prior[..fn][fn - 1];
      }
    }
  }

  lemma {:induction false} AuditPathClimbsBoth(h: TreeHash, fn: nat, prior: seq<Digest>, level: seq<Digest>)
    requires |prior| == fn + 1 <= |level| && prior[..fn] == level[..fn]
    ensures ClimbPair(h, fn, |level| - 1, prior[fn], level[fn], AuditPath(h, fn, level))
         == Some((TreeRoot(h, prior), TreeRoot(h, level)))
    decreases |level|
  {
    hide TreeRoot, Parent, PairUp, AuditPath, ClimbPair;
    if |level| == 1 {
      SingleLeafClimb(h, prior, level);
    } else {
      var priorUp, up := PairUp(h, prior), PairUp(h, level);
      AuditPathByLevels(h, fn, level);
      PairUpKeepsRoot(h, prior);
      PairUpKeepsRoot(h, level);
      PairClimbOneLevel(h, fn, prior, level, AuditPath(h, fn / 2, up));
      AuditPathClimbsBoth(h, fn / 2, priorUp, up);
    }
  }

  lemma SingleLeafClimb(h: TreeHash, prior: seq<Digest>, level: seq<Digest>)
    requires |prior| == |level| == 1
    ensures ClimbPair(h, 0, 0, prior[0], level[0], AuditPath(h, 0, level))
         == Some((TreeRoot(h, prior), TreeRoot(h, level)))
  {
  }

  lemma AcceptanceLifts(h: TreeHash, m: nat, n: nat, root1: Digest, root2: Digest, proof: seq<Digest>)
    requires 0 < m < n && m % 2 == 0
    ensures AcceptsProper(h, m, n, root1, root2, proof) == AcceptsProper(h, m / 2, (n + 1) / 2, root1, root2, proof)
  {
    hide ClimbPair;
    assert (m - 1) / 2 == m / 2 - 1 && (n - 1) / 2 == (n + 1) / 2 - 1;
  }

  lemma {:induction false} SubProofAccepted(h: TreeHash, m: nat, level: seq<Digest>)
    requires 0 < m < |level|
    ensures var proof, root := SubProof(h, m, level, true), TreeRoot(h, level[..m]);
      AcceptsProper(h, m, |level|, root, TreeRoot(h, level), if IsPowerOfTwo(m) then [root] + proof else proof)
    ensures |SubProof(h, m, level, true)| <= CeilLog2(|level|) + 1
    decreases |level|
  {
    hide TreeRoot, Parent, PairUp, SubProof, AcceptsProper, IsPowerOfTwo, CeilLog2;
    if m % 2 == 0 {
      var up := PairUp(h, level);
      assert CeilLog2(|up|) <= CeilLog2(|level|) by { CeilLog2Monotone(|up|, |level|); }
      EvenSubProofLifts(h, m, level, true);
      PairUpSplits(h, level, m);
      PairUpKeepsRoot(h, level);
      PairUpKeepsRoot(h, level[..m]);
      SubProofAccepted(h, m / 2, up);
      EvenPowerOfTwo(m);
      var proof, root := SubProof(h, m, level, true), TreeRoot(h, level[..m]);
      AcceptanceLifts(h, m, |level|, root, TreeRoot(h, level), if IsPowerOfTwo(m) then [root] + proof else proof);
    } else {
      OddBoundaryAccepted(h, m, level);
    }
  }

  lemma {:induction false} OddBoundaryAccepted(h: TreeHash, m: nat, level: seq<Digest>)
    requires 0 < m < |level| && m % 2 == 1
    ensures var proof, root := SubProof(h, m, level, true), TreeRoot(h, level[..m]);
      AcceptsProper(h, m, |level|, root, TreeRoot(h, level), if IsPowerOfTwo(m) then [root] + proof else proof)
    ensures |SubProof(h, m, level, true)| <= CeilLog2(|level|) + 1
  {
    hide AuditPath, SubProof, ClimbPair, TreeRoot, CeilLog2, IsPowerOfTwo;
    var proof, root := SubProof(h, m, level, true), TreeRoot(h, level[..m]);
    var full := if IsPowerOfTwo(m) then [root] + proof else proof;
    OddSubProofIsAuditPath(h, m, level);
    OddSubProofFromRoot(h, m, level);
    PathWithinHeight(h, m - 1, level);
    AuditPathClimbsBoth(h, m - 1, level[..m], level);
    OddPowerOfTwo(m);
    SingleRoot(h, level);
    assert full == [level[m - 1]] + AuditPath(h, m - 1, level);
    assert full[1..] == AuditPath(h, m - 1, level);
  }

  lemma SingleRoot(h: TreeHash, level: seq<Digest>)
    requires level != []
    ensures TreeRoot(h, level[..1]) == level[0]
  {
  }

  /** Completeness: every proof the log generates is accepted against its two tree hashes, and is
      at most one hash longer than the new tree is high. */
  lemma {:induction false} GeneratedProofAccepted(h: TreeHash, first: nat, second: nat, leaves: seq<Digest>)
    requires 0 < first <= second <= |leaves|
    ensures var proof := Generate(h, first, second, leaves);
      && proof.Ok?
      && Accepts(h, first, second, TreeRoot(h, leaves[..first]), TreeRoot(h, leaves[..second]), proof.value)
      && |proof.value| <= CeilLog2(second) + 1
  {
    if first < second {
      hide AcceptsProper, SubProof, TreeRoot;
      assert leaves[..second][..first] == leaves[..first];
      SubProofAccepted(h, first, leaves[..second]);
    }
  }

  /** The generated proof has that length. */
  lemma {:induction false} GeneratedProofLength(h: TreeHash, first: nat, second: nat, leaves: seq<Digest>)
    requires 0 < first < second <= |leaves|
    ensures Generate(h, first, second, leaves).Ok?
    ensures |Generate(h, first, second, leaves).value| == ProofLength(first, second)
  {
    hide Accepts, TreeRoot;
    GeneratedProofAccepted(h, first, second, leaves);
    AcceptedLength(h, first, second, TreeRoot(h, leaves[..first]), TreeRoot(h, leaves[..second]),
                   Generate(h, first, second, leaves).value);
  }

  /** Between trees of at most 2^e entries, proofs of at most e + 1 hashes. */
  lemma {:induction false} GeneratedProofIsShort(h: TreeHash, first: nat, second: nat, leaves: seq<Digest>, e: nat)
    requires 0 < first <= second <= |leaves| && second <= Pow2(e)
    ensures Generate(h, first, second, leaves).Ok? && |Generate(h, first, second, leaves).value| <= e + 1
  {
    GeneratedProofAccepted(h, first, second, leaves);
    CeilLog2Reaches(second, e);
  }

  // ---------------------------------------------------------------- soundness

  function FirstDifference(a: seq<Digest>, b: seq<Digest>): (i: nat)
    requires |a| == |b| && a != b
    ensures i < |a| && a[i] != b[i] && a[..i] == b[..i]
  {
    if a[0] != b[0] then 0
    else
      assert a == [a[0]] + a[1..] && b == [b[0]] + b[1..];
      var i := 1 + FirstDifference(a[1..], b[1..]);
      assert a[..i] == [a[0]] + a[1..][..i - 1] && b[..i] == [b[0]] + b[1..][..i - 1];
      i
  }

  /** Two lists of leaf hashes, or two levels above them. */
  ghost predicate Wide(h: TreeHash, prior: seq<Digest>, level: seq<Digest>) {
    FixedWidth(h) && AllWide(h, prior) && AllWide(h, level)
  }

  /** Two levels that differ where the levels above them agree. */
  function PairCollision(h: TreeHash, prior: seq<Digest>, level: seq<Digest>, i: nat): (c: Collision)
    requires Wide(h, prior, level)
    requires i / 2 * 2 + 1 < |prior| <= |level| && prior[i] != level[i]
    requires PairUp(h, prior)[i / 2] == PairUp(h, level)[i / 2]
    ensures IsCollision(h, c)
  {
    var j := i / 2;
    assert PairUp(h, prior)[j] == Parent(h, prior, j) && PairUp(h, level)[j] == Parent(h, level, j);
    HalvesCollide(h, prior[2 * j], prior[2 * j + 1], level[2 * j], level[2 * j + 1]);
    NodeInputs(prior[2 * j], prior[2 * j + 1], level[2 * j], level[2 * j + 1])
  }

  /** Equal-sized trees with one root are equal, or a collision. */
  function SameRootCollision(h: TreeHash, a: seq<Digest>, b: seq<Digest>): (c: Collision)
    requires Wide(h, a, b)
    requires |a| == |b| && a != b && TreeRoot(h, a) == TreeRoot(h, b)
    ensures IsCollision(h, c)
    decreases |a|
  {
    assert |a| <= 1 ==> a == b;
    var k := Split(|a|);
    assert a == a[..k] + a[k..] && b == b[..k] + b[k..];
    if TreeRoot(h, a[..k]) != TreeRoot(h, b[..k]) || TreeRoot(h, a[k..]) != TreeRoot(h, b[k..]) then
      RootIsWide(h, a[..k]);
      RootIsWide(h, b[..k]);
      HalvesCollide(h, TreeRoot(h, a[..k]), TreeRoot(h, a[k..]), TreeRoot(h, b[..k]), TreeRoot(h, b[k..]));
      NodeInputs(TreeRoot(h, a[..k]), TreeRoot(h, a[k..]), TreeRoot(h, b[..k]), TreeRoot(h, b[k..]))
    else if a[..k] != b[..k] then SameRootCollision(h, a[..k], b[..k])
    else SameRootCollision(h, a[k..], b[k..])
  }

  /** What an honest prover would have at the boundary node. */
  predicate Honest(prior: seq<Digest>, level: seq<Digest>, fr: Digest, sr: Digest)
    requires 0 < |prior| <= |level|
  {
    var fn := |prior| - 1;
    prior[..fn] == level[..fn] && fr == prior[fn] && sr == level[fn]
  }

  /** A proof may have digests of any length. What climbs to the new root is a hash from the first
      step on, and until then it is what climbs to the old root as well. */
  predicate Forced(h: TreeHash, fn: nat, sn: nat, fr: Digest, sr: Digest) {
    IsWide(h, sr) || (sr == fr && fn % 2 == 0 && fn < sn)
  }

  /** From boundary digests that are not honest but still climb to both roots, a collision. */
  function ClimbCollision(h: TreeHash, prior: seq<Digest>, level: seq<Digest>, fr: Digest, sr: Digest,
                          proof: seq<Digest>)
    : (c: Collision)
    requires Wide(h, prior, level) && 0 < |prior| <= |level|
    requires Forced(h, |prior| - 1, |level| - 1, fr, sr) && !Honest(prior, level, fr, sr)
    requires ClimbPair(h, |prior| - 1, |level| - 1, fr, sr, proof) == Some((TreeRoot(h, prior), TreeRoot(h, level)))
    ensures IsCollision(h, c)
    decreases |level|
  {
    ClimbLifts(h, prior, level, fr, sr, proof);
    var priorUp, up := PairUp(h, prior), PairUp(h, level);
    var (fr', sr', rest) := StepUp(h, |prior| - 1, |level| - 1, fr, sr, proof).value;
    if Honest(priorUp, up, fr', sr') then LevelCollision(h, prior, level, fr, sr, proof)
    else ClimbCollision(h, priorUp, up, fr', sr', rest)
  }

  lemma ClimbLifts(h: TreeHash, prior: seq<Digest>, level: seq<Digest>, fr: Digest, sr: Digest, proof: seq<Digest>)
    requires Wide(h, prior, level) && 0 < |prior| <= |level|
    requires Forced(h, |prior| - 1, |level| - 1, fr, sr) && !Honest(prior, level, fr, sr)
    requires ClimbPair(h, |prior| - 1, |level| - 1, fr, sr, proof) == Some((TreeRoot(h, prior), TreeRoot(h, level)))
    ensures |level| > 1
    ensures var step := StepUp(h, |prior| - 1, |level| - 1, fr, sr, proof);
      var priorUp, up := PairUp(h, prior), PairUp(h, level);
      && step.Some? && 0 < |priorUp| <= |up| < |level| && Wide(h, priorUp, up)
      && Forced(h, |priorUp| - 1, |up| - 1, step.value.0, step.value.1)
      && ClimbPair(h, |priorUp| - 1, |up| - 1, step.value.0, step.value.1, step.value.2)
         == Some((TreeRoot(h, priorUp), TreeRoot(h, up)))
  {
    hide Parent, StepUp, Node;
    PairUpKeepsRoot(h, prior);
    PairUpKeepsRoot(h, level);
    PairUpIsWide(h, prior);
    PairUpIsWide(h, level);
    assert (|prior| - 1) / 2 == (|prior| + 1) / 2 - 1 && (|level| - 1) / 2 == (|level| + 1) / 2 - 1;
    if |level| > 1 {
      StepForces(h, |prior| - 1, |level| - 1, fr, sr, proof);
    }
  }

  lemma StepForces(h: TreeHash, fn: nat, sn: nat, fr: Digest, sr: Digest, proof: seq<Digest>)
    requires FixedWidth(h) && fn <= sn && Forced(h, fn, sn, fr, sr)
    ensures var step := StepUp(h, fn, sn, fr, sr, proof);
      step.Some? ==> IsWide(h, step.value.1)
  {
  }

  /** The level at which dishonest digests step to honest ones holds the collision. */
  function LevelCollision(h: TreeHash, prior: seq<Digest>, level: seq<Digest>, fr: Digest, sr: Digest,
                          proof: seq<Digest>)
    : (c: Collision)
    requires Wide(h, prior, level) && 0 < |prior| <= |level| && |level| > 1
    requires Forced(h, |prior| - 1, |level| - 1, fr, sr) && !Honest(prior, level, fr, sr)
    requires var step := StepUp(h, |prior| - 1, |level| - 1, fr, sr, proof);
      step.Some? && Honest(PairUp(h, prior), PairUp(h, level), step.value.0, step.value.1)
    ensures IsCollision(h, c)
  {
    var fn := |prior| - 1;
    if prior[..fn / 2 * 2] != level[..fn / 2 * 2] then PrefixCollision(h, prior, level)
    else if fn % 2 == 0 then
      EvenBoundary(h, prior, level, fr, sr, proof);
      NodeInputs(sr, proof[0], level[fn], level[fn + 1])
    else
      OddBoundary(h, prior, level, fr, sr, proof);
      if proof[0] != level[fn - 1] || sr != level[fn] then NodeInputs(proof[0], sr, level[fn - 1], level[fn])
      else NodeInputs(proof[0], fr, prior[fn - 1], prior[fn])
  }

  lemma EvenBoundary(h: TreeHash, prior: seq<Digest>, level: seq<Digest>, fr: Digest, sr: Digest, proof: seq<Digest>)
    requires Wide(h, prior, level) && 0 < |prior| <= |level| && |level| > 1 && |prior| % 2 == 1
    requires Forced(h, |prior| - 1, |level| - 1, fr, sr) && !Honest(prior, level, fr, sr)
    requires prior[..|prior| - 1] == level[..|prior| - 1]
    requires var step := StepUp(h, |prior| - 1, |level| - 1, fr, sr, proof);
      step.Some? && Honest(PairUp(h, prior), PairUp(h, level), step.value.0, step.value.1)
    ensures var fn := |prior| - 1;
      fn + 1 < |level| && proof != [] && IsCollision(h, NodeInputs(sr, proof[0], level[fn], level[fn + 1]))
  {
    var fn := |prior| - 1;
    ParentOf(h, prior, fn);
    ParentOf(h, level, fn);
    hide PairUp, Node;
    assert fr == prior[fn] && IsWide(h, sr);
    if fn + 1 < |level| {
      HalvesCollide(h, sr, proof[0], level[fn], level[fn + 1]);
    }
  }

  lemma OddBoundary(h: TreeHash, prior: seq<Digest>, level: seq<Digest>, fr: Digest, sr: Digest, proof: seq<Digest>)
    requires Wide(h, prior, level) && 0 < |prior| <= |level| && |level| > 1 && |prior| % 2 == 0
    requires Forced(h, |prior| - 1, |level| - 1, fr, sr) && !Honest(prior, level, fr, sr)
    requires prior[..|prior| - 2] == level[..|prior| - 2]
    requires var step := StepUp(h, |prior| - 1, |level| - 1, fr, sr, proof);
      step.Some? && Honest(PairUp(h, prior), PairUp(h, level), step.value.0, step.value.1)
    ensures var fn := |prior| - 1;
      && proof != []
      && if proof[0] != level[fn - 1] || sr != level[fn]
         then IsCollision(h, NodeInputs(proof[0], sr, level[fn - 1], level[fn]))
         else IsCollision(h, NodeInputs(proof[0], fr, prior[fn - 1], prior[fn]))
  {
    var fn := |prior| - 1;
    ParentOf(h, prior, fn);
    ParentOf(h, level, fn);
    hide PairUp, Node;
    if proof[0] != level[fn - 1] || sr != level[fn] {
      HalvesCollide(h, proof[0], sr, level[fn - 1], level[fn]);
    } else {
      assert prior[..fn] == prior[..fn - 1] + [prior[fn - 1]] && level[..fn] == level[..fn - 1] + [level[fn - 1]];
      HalvesCollide(h, proof[0], fr, prior[fn - 1], prior[fn]);
    }
  }

  /** Prefixes that differ below a boundary whose parents agree. */
  function PrefixCollision(h: TreeHash, prior: seq<Digest>, level: seq<Digest>): (c: Collision)
    requires Wide(h, prior, level) && 0 < |prior| <= |level|
    requires var fn := |prior| - 1; prior[..fn / 2 * 2] != level[..fn / 2 * 2]
    requires var fn := |prior| - 1; PairUp(h, prior)[..fn / 2] == PairUp(h, level)[..fn / 2]
    ensures IsCollision(h, c)
  {
    var n := (|prior| - 1) / 2 * 2;
    var i := FirstDifference(prior[..n], level[..n]);
    assert PairUp(h, prior)[i / 2] == PairUp(h, prior)[..n / 2][i / 2];
    PairCollision(h, prior, level, i)
  }

  /** The same once complete levels have been skipped. */
  function BoundaryCollision(h: TreeHash, prior: seq<Digest>, level: seq<Digest>, proof: seq<Digest>): (c: Collision)
    requires Wide(h, prior, level) && 0 < |prior| < |level| && prior != level[..|prior|]
    requires AcceptsProper(h, |prior|, |level|, TreeRoot(h, prior), TreeRoot(h, level), proof)
    ensures IsCollision(h, c)
    decreases |level|
  {
    var priorUp, up := PairUp(h, prior), PairUp(h, level);
    if |prior| % 2 == 1 then
      OddBoundaryDishonest(prior, level, proof[0]);
      ClimbCollision(h, prior, level, proof[0], proof[0], proof[1..])
    else if priorUp == up[..|priorUp|] then PairedCollision(h, prior, level)
    else
      BoundaryLifts(h, prior, level, proof);
      BoundaryCollision(h, priorUp, up, proof)
  }

  lemma OddBoundaryDishonest(prior: seq<Digest>, level: seq<Digest>, boundary: Digest)
    requires 0 < |prior| <= |level| && prior != level[..|prior|]
    ensures !Honest(prior, level, boundary, boundary)
  {
    var m := |prior|;
    assert prior == prior[..m - 1] + [prior[m - 1]] && level[..m] == level[..m - 1] + [level[m - 1]];
  }

  function PairedCollision(h: TreeHash, prior: seq<Digest>, level: seq<Digest>): (c: Collision)
    requires Wide(h, prior, level)
    requires 0 < |prior| <= |level| && |prior| % 2 == 0 && prior != level[..|prior|]
    requires PairUp(h, prior) == PairUp(h, level)[..|prior| / 2]
    ensures IsCollision(h, c)
  {
    var i := FirstDifference(prior, level[..|prior|]);
    assert PairUp(h, level)[i / 2] == PairUp(h, level)[..|prior| / 2][i / 2];
    PairCollision(h, prior, level, i)
  }

  lemma {:induction false} BoundaryLifts(h: TreeHash, prior: seq<Digest>, level: seq<Digest>, proof: seq<Digest>)
    requires Wide(h, prior, level) && 0 < |prior| < |level| && |prior| % 2 == 0
    requires AcceptsProper(h, |prior|, |level|, TreeRoot(h, prior), TreeRoot(h, level), proof)
    ensures var priorUp, up := PairUp(h, prior), PairUp(h, level);
      && 0 < |priorUp| < |up| < |level| && Wide(h, priorUp, up)
      && AcceptsProper(h, |priorUp|, |up|, TreeRoot(h, priorUp), TreeRoot(h, up), proof)
  {
    hide TreeRoot, Parent, AcceptsProper;
    PairUpKeepsRoot(h, prior);
    PairUpKeepsRoot(h, level);
    PairUpIsWide(h, prior);
    PairUpIsWide(h, level);
    AcceptanceLifts(h, |prior|, |level|, TreeRoot(h, prior), TreeRoot(h, level), proof);
  }

  /** Soundness, computed: from an accepted proof, with digests of any length, between the tree hashes
      of two lists of leaf hashes of which the first is not a prefix of the second, two different hash
      inputs with one hash. */
  function ForkEvidence(h: TreeHash, first: seq<Digest>, second: seq<Digest>, proof: seq<Digest>): (c: Collision)
    requires FixedWidth(h) && AllWide(h, first) && AllWide(h, second)
    requires first != [] && !(first <= second)
    requires Accepts(h, |first|, |second|, TreeRoot(h, first), TreeRoot(h, second), proof)
    ensures IsCollision(h, c)
  {
    if |first| == |second| then
      assert second[..|first|] == second;
      SameRootCollision(h, first, second)
    else
      BoundaryCollision(h, first, second, if IsPowerOfTwo(|first|) then [TreeRoot(h, first)] + proof else proof)
  }

  /** From the empty tree every root is accepted: an accepted proof binds the old root only when
      first > 0 (or both trees are empty). */
  lemma {:induction false} EmptyTreeBindsNothing(h: TreeHash, second: int, root1: Digest, root2: Digest,
                                                 proof: seq<Digest>)
    requires second > 0
    ensures Accepts(h, 0, second, root1, root2, proof) <==> proof == []
  {
  }
}
