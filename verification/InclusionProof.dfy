// Inclusion proofs of the transparency log: RFC 6962 section 2.1.1 generation, RFC 9162 section
// 2.1.3.2 verification.
module InclusionProof {
  import opened Basics
  import opened MerkleTree

  /** The audit path as generated, by recursion on the split point. */
  function AuditPath(h: TreeHash, index: nat, leaves: seq<Digest>): seq<Digest>
    requires index < |leaves|
    decreases |leaves|
  {
    if |leaves| == 1 then []
    else
      var k := Split(|leaves|);
      if index < k then AuditPath(h, index, leaves[..k]) + [TreeRoot(h, leaves[k..])]
      else AuditPath(h, index - k, leaves[k..]) + [TreeRoot(h, leaves[..k])]
  }

  /** inclusion_audit_path: a bad index is an error, not a precondition. */
  function InclusionAuditPath(h: TreeHash, index: int, leaves: seq<Digest>): Result<seq<Digest>, string> {
    if 0 <= index < |leaves| then Ok(AuditPath(h, index, leaves)) else Err("leaf index out of range")
  }

  /** The siblings one level contributes to the path of node i: none for a promoted last node. */
  function Sibling(level: seq<Digest>, i: nat): (s: seq<Digest>)
    requires i < |level|
  {
    if i % 2 == 1 then [level[i - 1]]
    else if i + 1 < |level| then [level[i + 1]]
    else []
  }

  /** The top-down path is the bottom-up list of siblings. */
  lemma {:induction false} AuditPathByLevels(h: TreeHash, i: nat, level: seq<Digest>)
    requires i < |level|
    ensures AuditPath(h, i, level) == Sibling(level, i) + AuditPath(h, i / 2, PairUp(h, level))
    decreases |level|
  {
    hide TreeRoot, Parent, PairUp, AuditPath, Sibling;
    if |level| <= 2 {
      ShortPathByLevels(h, i, level);
    } else {
      var k, sib := Split(|level|), Sibling(level, i);
      PathsSplit(h, i, level);
      SiblingInSubtree(level, i, k);
      if i < k {
        AuditPathByLevels(h, i, level[..k]);
        var rest, top := AuditPath(h, i / 2, PairUp(h, level[..k])), [TreeRoot(h, level[k..])];
        assert sib + rest + top == sib + (rest + top);
      } else {
        AuditPathByLevels(h, i - k, level[k..]);
        var rest, top := AuditPath(h, (i - k) / 2, PairUp(h, level[k..])), [TreeRoot(h, level[..k])];
        assert sib + rest + top == sib + (rest + top);
      }
    }
  }

  lemma SiblingInSubtree(level: seq<Digest>, i: nat, k: nat)
    requires i < |level| && k <= |level| && k % 2 == 0
    ensures Sibling(level, i) == if i < k then Sibling(level[..k], i) else Sibling(level[k..], i - k)
  {
  }

  lemma {:induction false} ShortPathByLevels(h: TreeHash, i: nat, level: seq<Digest>)
    requires i < |level| <= 2
    ensures AuditPath(h, i, level) == Sibling(level, i) + AuditPath(h, i / 2, PairUp(h, level))
  {
    hide Parent, PairUp;
    assert AuditPath(h, i / 2, PairUp(h, level)) == [];
    if |level| == 2 {
      assert level[..1] == [level[0]] && level[1..] == [level[1]];
    }
  }

  /** The path in a level and in the one above it split at the same subtree boundary. */
  lemma {:induction false} PathsSplit(h: TreeHash, i: nat, level: seq<Digest>)
    requires i < |level| && |level| > 2
    ensures var k, up := Split(|level|), PairUp(h, level);
      if i < k then
        && AuditPath(h, i, level) == AuditPath(h, i, level[..k]) + [TreeRoot(h, level[k..])]
        && AuditPath(h, i / 2, up) == AuditPath(h, i / 2, PairUp(h, level[..k])) + [TreeRoot(h, level[k..])]
      else
        && AuditPath(h, i, level) == AuditPath(h, i - k, level[k..]) + [TreeRoot(h, level[..k])]
        && AuditPath(h, i / 2, up) == AuditPath(h, (i - k) / 2, PairUp(h, level[k..])) + [TreeRoot(h, level[..k])]
  {
    hide PairUp, TreeRoot, Parent;
    var k, up := Split(|level|), PairUp(h, level);
    assert |up| > 1 && Split(|up|) == k / 2;
    PairUpSplits(h, level, k);
    PairUpKeepsRoot(h, level[..k]);
    PairUpKeepsRoot(h, level[k..]);
  }

  /** The root reached from node fn of a level whose last node is sn, one level at a time; None
      when the path is too short or too long. */
  function Climb(h: TreeHash, fn: nat, sn: nat, acc: Digest, path: seq<Digest>): Option<Digest>
    decreases sn
  {
    if sn == 0 then (if path == [] then Some(acc) else None)
    else if fn % 2 == 0 && fn == sn then Climb(h, fn / 2, sn / 2, acc, path)
    else if path == [] then None
    else if fn % 2 == 1 then Climb(h, fn / 2, sn / 2, Node(h, path[0], acc), path[1..])
    else Climb(h, fn / 2, sn / 2, Node(h, acc, path[0]), path[1..])
  }

  predicate Accepts(h: TreeHash, leaf: Digest, index: int, size: int, path: seq<Digest>, root: Digest) {
    0 <= index < size && Climb(h, index, size - 1, leaf, path) == Some(root)
  }

  /** The last node of an odd level has no sibling. */
  predicate Promoted(i: nat, n: nat) {
    i % 2 == 0 && i + 1 == n
  }

  /** How many siblings a node has on its way up. */
  function PathLength(i: nat, n: nat): nat
    requires i < n
    decreases n
  {
    if n == 1 then 0 else (if Promoted(i, n) then 0 else 1) + PathLength(i / 2, (n + 1) / 2)
  }

  lemma {:induction false} ClimbLength(h: TreeHash, fn: nat, sn: nat, acc: Digest, path: seq<Digest>)
    requires fn <= sn && Climb(h, fn, sn, acc, path).Some?
    ensures |path| == PathLength(fn, sn + 1)
    decreases sn
  {
    hide Node;
    if sn > 0 {
      assert (sn + 2) / 2 == sn / 2 + 1;
      if Promoted(fn, sn + 1) {
        ClimbLength(h, fn / 2, sn / 2, acc, path);
      } else if fn % 2 == 1 {
        ClimbLength(h, fn / 2, sn / 2, Node(h, path[0], acc), path[1..]);
      } else {
        ClimbLength(h, fn / 2, sn / 2, Node(h, acc, path[0]), path[1..]);
      }
    }
  }

  /** verify_inclusion_path: the shifting loop decides exactly Accepts; an index out of range and a
      path of any other length than the generated one are refused. */
  method VerifyInclusionPath(h: TreeHash, leaf: Digest, index: int, size: int, auditPath: seq<Digest>, root: Digest)
    returns (ok: bool)
    ensures ok == Accepts(h, leaf, index, size, auditPath, root)
    ensures ok ==> 0 <= index < size && |auditPath| == PathLength(index, size)
    ensures size == 1 ==> (ok <==> index == 0 && auditPath == [] && leaf == root)
  {
    if Accepts(h, leaf, index, size, auditPath, root) {
      ClimbLength(h, index, size - 1, leaf, auditPath);
    }
    if !(0 <= index < size) {
      return false;
    }
    if size == 1 {
      return |auditPath| == 0 && leaf == root;
    }
    var fn, sn: nat, acc, path := index, size - 1, leaf, auditPath;
    while sn > 0
      invariant 0 <= fn <= sn
      invariant Climb(h, index, size - 1, leaf, auditPath) == Climb(h, fn, sn, acc, path)
      decreases sn
    {
      if path == [] {
        ShortPathFails(h, fn, sn, acc);
        return false;
      }
      var sib := path[0];
      if fn % 2 == 1 || fn == sn {
        ghost var sn0, fn0 := sn, fn;
        while fn % 2 == 0 && fn != 0
          invariant 0 <= fn <= sn <= sn0
          invariant fn0 == sn0 ==> fn == sn > 0
          invariant fn0 != sn0 ==> fn == fn0 && sn == sn0
          invariant Climb(h, fn0, sn0, acc, path) == Climb(h, fn, sn, acc, path)
          decreases fn
        {
          fn, sn := fn / 2, sn / 2;
        }
        acc := Node(h, sib, acc);
      } else {
        acc := Node(h, acc, sib);
      }
      path := path[1..];
      fn, sn := fn / 2, sn / 2;
    }
    return |path| == 0 && acc == root;
  }

  lemma {:induction false} ShortPathFails(h: TreeHash, fn: nat, sn: nat, acc: Digest)
    requires fn <= sn && sn > 0
    ensures Climb(h, fn, sn, acc, []) == None
    decreases sn
  {
    if fn % 2 == 0 && fn == sn {
      ShortPathFails(h, fn / 2, sn / 2, acc);
    }
  }

  /** Completeness: every leaf's generated path is accepted against the tree hash. */
  lemma {:induction false} GeneratedPathAccepted(h: TreeHash, index: nat, leaves: seq<Digest>)
    requires index < |leaves|
    ensures Accepts(h, leaves[index], index, |leaves|, AuditPath(h, index, leaves), TreeRoot(h, leaves))
    decreases |leaves|
  {
    hide TreeRoot, Parent, PairUp, AuditPath, Climb;
    if |leaves| == 1 {
      SingleLeafAccepted(h, leaves);
    } else {
      var up := PairUp(h, leaves);
      AuditPathByLevels(h, index, leaves);
      PairUpKeepsRoot(h, leaves);
      GeneratedPathAccepted(h, index / 2, up);
      ClimbOneLevel(h, index, leaves, AuditPath(h, index / 2, up));
    }
  }

  lemma SingleLeafAccepted(h: TreeHash, leaves: seq<Digest>)
    requires |leaves| == 1
    ensures Accepts(h, leaves[0], 0, 1, AuditPath(h, 0, leaves), TreeRoot(h, leaves))
  {
  }

  /** With the right siblings in front, the climb from a node of a level is the climb from its
      parent in the level above. */
  lemma ClimbOneLevel(h: TreeHash, i: nat, level: seq<Digest>, rest: seq<Digest>)
    requires i < |level| && |level| > 1
    ensures Climb(h, i, |level| - 1, level[i], Sibling(level, i) + rest)
         == Climb(h, i / 2, |PairUp(h, level)| - 1, PairUp(h, level)[i / 2], rest)
  {
    var path, up := Sibling(level, i) + rest, PairUp(h, level);
    assert up[i / 2] == Parent(h, level, i / 2);
    assert (|level| - 1) / 2 == |up| - 1;
    if i % 2 == 0 && i + 1 == |level| {
      assert path == rest;
    } else {
      assert path[0] == Sibling(level, i)[0] && path[1..] == rest;
    }
  }

  /** Generation and verification fail on the same indices: a path is generated exactly when some
      leaf and some path could be accepted. */
  lemma GeneratedIffAcceptable(h: TreeHash, index: int, leaves: seq<Digest>)
    ensures InclusionAuditPath(h, index, leaves).Ok?
      <==> exists leaf, path :: Accepts(h, leaf, index, |leaves|, path, TreeRoot(h, leaves))
  {
    hide TreeRoot, Climb;
    if 0 <= index < |leaves| {
      GeneratedPathAccepted(h, index, leaves);
      hide Accepts;
    }
  }

  /** A path is never longer than the height of the tree. */
  lemma {:induction false} PathWithinHeight(h: TreeHash, index: nat, leaves: seq<Digest>)
    requires index < |leaves|
    ensures |AuditPath(h, index, leaves)| <= CeilLog2(|leaves|)
    decreases |leaves|
  {
    if |leaves| > 1 {
      AuditPathByLevels(h, index, leaves);
      PathWithinHeight(h, index / 2, PairUp(h, leaves));
    }
  }

  /** A generated path has a hash for every level at which its node has a sibling. */
  lemma {:induction false} GeneratedPathLength(h: TreeHash, index: nat, leaves: seq<Digest>)
    requires index < |leaves|
    ensures |AuditPath(h, index, leaves)| == PathLength(index, |leaves|)
  {
    hide TreeRoot, AuditPath;
    GeneratedPathAccepted(h, index, leaves);
    ClimbLength(h, index, |leaves| - 1, leaves[index], AuditPath(h, index, leaves));
  }

  /** Under 2^e entries, paths of at most e hashes. */
  lemma {:induction false} AuditPathIsShort(h: TreeHash, index: nat, leaves: seq<Digest>, e: nat)
    requires index < |leaves| <= Pow2(e)
    ensures |AuditPath(h, index, leaves)| <= CeilLog2(|leaves|) <= e
  {
    PathWithinHeight(h, index, leaves);
    CeilLog2Reaches(|leaves|, e);
  }

  /** The children of a parent, when one of them is given and the path gives the other. */
  function Children(i: nat, node: Digest, sibling: Digest): (Digest, Digest) {
    if i % 2 == 1 then (sibling, node) else (node, sibling)
  }

  lemma ParentOf(h: TreeHash, level: seq<Digest>, i: nat)
    requires i < |level|
    ensures PairUp(h, level)[i / 2]
      == if Promoted(i, |level|) then level[i] else Node(h, level[i / 2 * 2], level[i / 2 * 2 + 1])
  {
    assert PairUp(h, level)[i / 2] == Parent(h, level, i / 2);
  }

  /** An accepted proof is one of the level above as well. */
  lemma AcceptanceClimbs(h: TreeHash, leaf: Digest, index: nat, leaves: seq<Digest>, path: seq<Digest>)
    requires index < |leaves| && |leaves| > 1
    requires Accepts(h, leaf, index, |leaves|, path, TreeRoot(h, leaves))
    ensures var up := PairUp(h, leaves);
      if Promoted(index, |leaves|) then Accepts(h, leaf, index / 2, |up|, path, TreeRoot(h, up))
      else
        && path != []
        && var (left, right) := Children(index, leaf, path[0]);
           Accepts(h, Node(h, left, right), index / 2, |up|, path[1..], TreeRoot(h, up))
  {
    PairUpKeepsRoot(h, leaves);
    hide TreeRoot, PairUp, Node;
    assert (|leaves| - 1) / 2 == (|leaves| + 1) / 2 - 1;
  }

  /** Soundness, computed: from an accepted proof of a digest that is not the leaf at that index, two
      different hash inputs with one hash. The digest must have the length of a hash; those of the
      path may have any. */
  function ForgedInclusion(h: TreeHash, leaf: Digest, index: nat, leaves: seq<Digest>, path: seq<Digest>)
    : (c: Collision)
    requires FixedWidth(h) && AllWide(h, leaves) && IsWide(h, leaf)
    requires index < |leaves| && leaf != leaves[index]
    requires Accepts(h, leaf, index, |leaves|, path, TreeRoot(h, leaves))
    ensures IsCollision(h, c)
    decreases |leaves|
  {
    assert |leaves| > 1;
    AcceptanceClimbs(h, leaf, index, leaves, path);
    ParentOf(h, leaves, index);
    PairUpIsWide(h, leaves);
    var up := PairUp(h, leaves);
    if Promoted(index, |leaves|) then ForgedInclusion(h, leaf, index / 2, up, path)
    else
      var (left, right) := Children(index, leaf, path[0]);
      var left', right' := leaves[index / 2 * 2], leaves[index / 2 * 2 + 1];
      if Node(h, left, right) == up[index / 2] then
        HalvesCollide(h, left, right, left', right');
        NodeInputs(left, right, left', right')
      else
        NodeIsWide(h, left, right);
        ForgedInclusion(h, Node(h, left, right), index / 2, up, path[1..])
  }

  /** For a digest of any length: a collision of the hash, or else the accepted digest is the leaf at
      that index exactly when it has the length of a hash. */
  function Breach(h: TreeHash, leaf: Digest, index: nat, leaves: seq<Digest>, path: seq<Digest>)
    : (c: Option<Collision>)
    requires FixedWidth(h) && AllWide(h, leaves) && index < |leaves|
    requires Accepts(h, leaf, index, |leaves|, path, TreeRoot(h, leaves))
    ensures c.Some? ==> IsCollision(h, c.value)
    ensures c.None? ==> (leaf == leaves[index] <==> IsWide(h, leaf))
    decreases |leaves|
  {
    if |leaves| == 1 then None
    else
      AcceptanceClimbs(h, leaf, index, leaves, path);
      ParentOf(h, leaves, index);
      PairUpIsWide(h, leaves);
      var up := PairUp(h, leaves);
      if Promoted(index, |leaves|) then Breach(h, leaf, index / 2, up, path)
      else
        var (left, right) := Children(index, leaf, path[0]);
        var left', right' := leaves[index / 2 * 2], leaves[index / 2 * 2 + 1];
        var c := NodeInputs(left, right, left', right');
        if Node(h, left, right) != up[index / 2] then
          NodeIsWide(h, left, right);
          Some(ForgedInclusion(h, Node(h, left, right), index / 2, up, path[1..]))
        else if c.input0 != c.input1 then Some(c)
        else
          CutOrChild(h, index, leaf, path[0], leaves);
          None
  }

  lemma CutOrChild(h: TreeHash, i: nat, part: Digest, rest: Digest, level: seq<Digest>)
    requires AllWide(h, level) && i < |level| && !Promoted(i, |level|) && IsCut(level, i, part, rest)
    ensures part == level[i] <==> IsWide(h, part)
  {
    var (left, right) := Children(i, part, rest);
    if IsWide(h, part) {
      InputSplits(left, right, level[i / 2 * 2], level[i / 2 * 2 + 1]);
    }
  }

  /** How the input of a parent can be cut in two, so that one part stands for the child at i. */
  predicate IsCut(level: seq<Digest>, i: nat, part: Digest, rest: Digest)
    requires i < |level| && !Promoted(i, |level|)
  {
    var (left, right) := Children(i, part, rest);
    left.bytes + right.bytes == level[i / 2 * 2].bytes + level[i / 2 * 2 + 1].bytes
  }

  /** The length is needed: of every tree, at every leaf with a sibling, any cut of the two leaves'
      bytes is accepted in the place of the leaf, without any collision. */
  lemma {:induction false} CutLeafAccepted(h: TreeHash, index: nat, leaves: seq<Digest>, part: Digest, rest: Digest)
    requires index < |leaves| && !Promoted(index, |leaves|) && IsCut(leaves, index, part, rest)
    ensures var path := [rest] + AuditPath(h, index / 2, PairUp(h, leaves));
      Accepts(h, part, index, |leaves|, path, TreeRoot(h, leaves))
  {
    hide TreeRoot, PairUp, AuditPath;
    var up := PairUp(h, leaves);
    var path := [rest] + AuditPath(h, index / 2, up);
    PairUpKeepsRoot(h, leaves);
    ParentOf(h, leaves, index);
    GeneratedPathAccepted(h, index / 2, up);
    assert path[0] == rest && path[1..] == AuditPath(h, index / 2, up);
    assert (|leaves| - 1) / 2 == |up| - 1;
  }
}
