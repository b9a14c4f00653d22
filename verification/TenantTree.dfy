// The tenant ledger tree of crypto_shim.py: levels are paired in place, an odd last node is
// promoted, and proofs carry the side of every sibling.
module TenantTree {
  import opened Basics
  import opened MerkleTree
  import opened InclusionProof

  datatype Step = Step(sibling: Digest, right: bool)

  datatype LedgerProof = LedgerProof(leafHash: Digest, rootHash: Digest, path: seq<Step>)

  /** What one level contributes to the proof of node i. */
  function LevelStep(level: seq<Digest>, i: nat): seq<Step>
    requires i < |level|
  {
    if i % 2 == 1 then [Step(level[i - 1], false)]
    else if i + 1 < |level| then [Step(level[i + 1], true)]
    else []
  }

  function Path(h: TreeHash, i: nat, level: seq<Digest>): seq<Step>
    requires i < |level|
    decreases |level|
  {
    if |level| == 1 then [] else LevelStep(level, i) + Path(h, i / 2, PairUp(h, level))
  }

  function Fold(h: TreeHash, acc: Digest, path: seq<Step>): Digest
    decreases |path|
  {
    if path == [] then acc
    else Fold(h, if path[0].right then Node(h, acc, path[0].sibling) else Node(h, path[0].sibling, acc), path[1..])
  }

  function Siblings(path: seq<Step>): seq<Digest> {
    seq(|path|, i requires 0 <= i < |path| => path[i].sibling)
  }

  /** merkle_root: for any non-empty leaf list the level-by-level loop returns the root of the
      RFC 6962 recursion, and "" for the empty list. */
  method MerkleRoot(h: TreeHash, leaves: seq<Digest>) returns (root: Digest)
    ensures root == if leaves == [] then Digest([]) else TreeRoot(h, leaves)
  {
    if leaves == [] {
      return Digest([]);
    }
    var level := leaves;
    while |level| > 1
      invariant |level| > 0 && TreeRoot(h, level) == TreeRoot(h, leaves)
      decreases |level|
    {
      PairUpKeepsRoot(h, level);
      level := NextLevel(h, level);
    }
    return level[0];
  }

  /** The inner loop of merkle_root. */
  method NextLevel(h: TreeHash, level: seq<Digest>) returns (nxt: seq<Digest>)
    ensures nxt == PairUp(h, level)
  {
    nxt := [];
    var i := 0;
    while i < |level|
      invariant i % 2 == 0 && i <= |level| + 1
      invariant nxt == PairUp(h, level)[..i / 2]
    {
      assert PairUp(h, level)[i / 2] == Parent(h, level, i / 2);
      if i + 1 < |level| {
        nxt := nxt + [Node(h, level[i], level[i + 1])];
      } else {
        nxt := nxt + [level[i]];
      }
      i := i + 2;
    }
  }

  /** merkle_proof: a bad index is an error; otherwise the path is the one of Path and the root is
      the RFC 6962 root of the leaves. */
  method MerkleProof(h: TreeHash, leaves: seq<Digest>, index: int) returns (r: Result<LedgerProof, string>)
    ensures r.Ok? <==> 0 <= index < |leaves|
    ensures r.Ok? ==> r.value == LedgerProof(leaves[index], TreeRoot(h, leaves), Path(h, index, leaves))
    ensures r.Ok? ==> Fold(h, r.value.leafHash, r.value.path) == r.value.rootHash
  {
    if |leaves| == 0 || !(0 <= index < |leaves|) {
      return Err("leaf index out of range");
    }
    var path, level, idx := [], leaves, index;
    while |level| > 1
      invariant 0 <= idx < |level| && TreeRoot(h, level) == TreeRoot(h, leaves)
      invariant path + Path(h, idx, level) == Path(h, index, leaves)
      decreases |level|
    {
      PairUpKeepsRoot(h, level);
      assert path + Path(h, idx, level) == path + LevelStep(level, idx) + Path(h, idx / 2, PairUp(h, level));
      level, idx, path := ScanLevel(h, level, idx, path);
    }
    assert path + [] == path;
    PathFoldsToRoot(h, index, leaves);
    return Ok(LedgerProof(leaves[index], level[0], path));
  }

  /** The inner loop of merkle_proof. It rewrites idx to the parent position while still scanning,
      which no later pair of the same level can match. */
  method ScanLevel(h: TreeHash, level: seq<Digest>, at: nat, before: seq<Step>)
    returns (nxt: seq<Digest>, idx: nat, path: seq<Step>)
    requires at < |level|
    ensures nxt == PairUp(h, level) && idx == at / 2 && path == before + LevelStep(level, at)
  {
    nxt, idx, path := [], at, before;
    var i := 0;
    while i < |level|
      invariant i % 2 == 0 && i <= |level| + 1
      invariant nxt == PairUp(h, level)[..i / 2]
      invariant i <= at ==> idx == at && path == before
      invariant i > at ==> idx == at / 2 && path == before + LevelStep(level, at)
    {
      assert PairUp(h, level)[i / 2] == Parent(h, level, i / 2);
      if i + 1 < |level| {
        var parent := Node(h, level[i], level[i + 1]);
        if i == idx || i + 1 == idx {
          var sibRight := idx == i;
          var sib := if sibRight then level[i + 1] else level[i];
          path := path + [Step(sib, sibRight)];
          idx := |nxt|;
        }
        nxt := nxt + [parent];
      } else {
        if i == idx {
          idx := |nxt|;
        }
        nxt := nxt + [level[i]];
      }
      i := i + 2;
    }
  }

  /** Round trip: the generated path folds every leaf to the tree's root. */
  lemma {:induction false} PathFoldsToRoot(h: TreeHash, i: nat, leaves: seq<Digest>)
    requires i < |leaves|
    ensures Fold(h, leaves[i], Path(h, i, leaves)) == TreeRoot(h, leaves)
    decreases |leaves|
  {
    if |leaves| > 1 {
      var up := PairUp(h, leaves);
      PairUpKeepsRoot(h, leaves);
      PathFoldsToRoot(h, i / 2, up);
      FoldOneLevel(h, i, leaves, Path(h, i / 2, up));
    }
  }

  lemma FoldOneLevel(h: TreeHash, i: nat, level: seq<Digest>, rest: seq<Step>)
    requires i < |level|
    ensures Fold(h, level[i], LevelStep(level, i) + rest) == Fold(h, PairUp(h, level)[i / 2], rest)
  {
    var path := LevelStep(level, i) + rest;
    assert PairUp(h, level)[i / 2] == Parent(h, level, i / 2);
    if LevelStep(level, i) == [] {
      assert path == rest;
    } else {
      assert path[0] == LevelStep(level, i)[0] && path[1..] == rest;
    }
  }

  /** The two proof generators agree: the tenant path carries exactly the siblings of the RFC 6962
      audit path, in the same order. */
  lemma {:induction false} PathCarriesAuditPath(h: TreeHash, i: nat, leaves: seq<Digest>)
    requires i < |leaves|
    ensures Siblings(Path(h, i, leaves)) == AuditPath(h, i, leaves)
    decreases |leaves|
  {
    hide MerkleTree.TreeRoot, PairUp, AuditPath, Path, Siblings, LevelStep, Sibling;
    if |leaves| == 1 {
      SinglePaths(h, leaves);
    } else {
      var up := PairUp(h, leaves);
      PathUnfolds(h, i, leaves);
      LevelSiblings(leaves, i, Path(h, i / 2, up));
      AuditPathByLevels(h, i, leaves);
      PathCarriesAuditPath(h, i / 2, up);
    }
  }

  lemma SinglePaths(h: TreeHash, leaves: seq<Digest>)
    requires |leaves| == 1
    ensures Siblings(Path(h, 0, leaves)) == [] && AuditPath(h, 0, leaves) == []
  {
  }

  lemma PathUnfolds(h: TreeHash, i: nat, level: seq<Digest>)
    requires i < |level| && |level| > 1
    ensures Path(h, i, level) == LevelStep(level, i) + Path(h, i / 2, PairUp(h, level))
  {
  }

  lemma LevelSiblings(level: seq<Digest>, i: nat, rest: seq<Step>)
    requires i < |level|
    ensures Siblings(LevelStep(level, i) + rest) == Sibling(level, i) + Siblings(rest)
  {
  }

  // ---------------------------------------------------------------- what an accepted proof shows

  function Sides(path: seq<Step>): seq<bool> {
    seq(|path|, i requires 0 <= i < |path| => path[i].right)
  }

  /** The sides a caller who knows the index and the number of leaves expects, from the leaf up. */
  function ExpectedSides(i: nat, n: nat): seq<bool>
    requires i < n
    decreases n
  {
    if n == 1 then [] else LevelSide(i, n) + ExpectedSides(i / 2, (n + 1) / 2)
  }

  function LevelSide(i: nat, n: nat): seq<bool> {
    if i % 2 == 1 then [false] else if i + 1 < n then [true] else []
  }

  lemma {:induction false} PathHasExpectedSides(h: TreeHash, i: nat, leaves: seq<Digest>)
    requires i < |leaves|
    ensures Sides(Path(h, i, leaves)) == ExpectedSides(i, |leaves|)
    decreases |leaves|
  {
    if |leaves| > 1 {
      var rest := Path(h, i / 2, PairUp(h, leaves));
      PathHasExpectedSides(h, i / 2, PairUp(h, leaves));
      assert Sides(LevelStep(leaves, i) + rest) == Sides(LevelStep(leaves, i)) + Sides(rest);
    }
  }

  /** The inputs of the parent of a leaf, as its path's first step gives them. */
  function FirstInputs(leaf: Digest, step: Step): (Digest, Digest) {
    if step.right then (leaf, step.sibling) else (step.sibling, leaf)
  }

  lemma ForgeryClimbs(h: TreeHash, leaf: Digest, i: nat, leaves: seq<Digest>, path: seq<Step>)
    requires i < |leaves| && |leaves| > 1 && Sides(path) == ExpectedSides(i, |leaves|)
    requires Fold(h, leaf, path) == TreeRoot(h, leaves)
    ensures var up := PairUp(h, leaves);
      if Promoted(i, |leaves|) then
        up[i / 2] == leaves[i] && Sides(path) == ExpectedSides(i / 2, |up|) && Fold(h, leaf, path) == TreeRoot(h, up)
      else
        && up[i / 2] == Node(h, leaves[i / 2 * 2], leaves[i / 2 * 2 + 1])
        && path != [] && path[0].right == (i % 2 == 0) && Sides(path[1..]) == ExpectedSides(i / 2, |up|)
        && var (left, right) := FirstInputs(leaf, path[0]);
           Fold(h, Node(h, left, right), path[1..]) == TreeRoot(h, up)
  {
    hide TreeRoot, PairUp, Parent, Sides, ExpectedSides;
    PairUpKeepsRoot(h, leaves);
    ParentOf(h, leaves, i);
    SidesClimb(i, |leaves|, path);
  }

  lemma SidesClimb(i: nat, n: nat, path: seq<Step>)
    requires i < n && n > 1 && Sides(path) == ExpectedSides(i, n)
    ensures if Promoted(i, n) then Sides(path) == ExpectedSides(i / 2, (n + 1) / 2)
      else path != [] && path[0].right == (i % 2 == 0) && Sides(path[1..]) == ExpectedSides(i / 2, (n + 1) / 2)
  {
    SidesByLevel(i, n);
    hide ExpectedSides;
    if !Promoted(i, n) {
      assert path != [] by { assert |Sides(path)| > 0; }
      assert Sides(path) == [path[0].right] + Sides(path[1..]);
      SameFront(path[0].right, Sides(path[1..]), i % 2 == 0, ExpectedSides(i / 2, (n + 1) / 2));
    }
  }

  lemma SameFront(x: bool, a: seq<bool>, y: bool, b: seq<bool>)
    requires [x] + a == [y] + b
    ensures x == y && a == b
  {
    assert a == ([x] + a)[1..] && b == ([y] + b)[1..] && ([x] + a)[0] == x;
  }

  /** Soundness, computed: from an accepted proof of a digest that is not leaf i, whose path has the
      sides of index i, two different hash inputs with one hash. The digest must have the length of a
      hash; the siblings may have any. */
  function ForgedLeaf(h: TreeHash, leaf: Digest, i: nat, leaves: seq<Digest>, path: seq<Step>): (c: Collision)
    requires FixedWidth(h) && AllWide(h, leaves) && IsWide(h, leaf)
    requires i < |leaves| && Sides(path) == ExpectedSides(i, |leaves|)
    requires Fold(h, leaf, path) == TreeRoot(h, leaves) && leaf != leaves[i]
    ensures IsCollision(h, c)
    decreases |leaves|
  {
    assert |leaves| == 1 ==> path == [];
    ForgeryClimbs(h, leaf, i, leaves, path);
    PairUpIsWide(h, leaves);
    var up := PairUp(h, leaves);
    if Promoted(i, |leaves|) then ForgedLeaf(h, leaf, i / 2, up, path)
    else
      var (left, right) := FirstInputs(leaf, path[0]);
      var left', right' := leaves[i / 2 * 2], leaves[i / 2 * 2 + 1];
      if Node(h, left, right) == up[i / 2] then
        HalvesCollide(h, left, right, left', right');
        NodeInputs(left, right, left', right')
      else
        NodeIsWide(h, left, right);
        ForgedLeaf(h, Node(h, left, right), i / 2, up, path[1..])
  }

  /** The length is needed: of every tree, at every leaf with a sibling, any cut of the two leaves'
      text is accepted in the place of the leaf, with the sides of its index and no collision. */
  lemma {:induction false} CutLeafAccepted(h: TreeHash, i: nat, leaves: seq<Digest>, part: Digest, rest: Digest)
    requires i < |leaves| && !Promoted(i, |leaves|) && IsCut(leaves, i, part, rest)
    ensures var path := [Step(rest, i % 2 == 0)] + Path(h, i / 2, PairUp(h, leaves));
      Fold(h, part, path) == TreeRoot(h, leaves) && Sides(path) == ExpectedSides(i, |leaves|)
  {
    hide TreeRoot, PairUp, Path, ExpectedSides, Sides;
    var up := PairUp(h, leaves);
    var above := Path(h, i / 2, up);
    var path := [Step(rest, i % 2 == 0)] + above;
    PairUpKeepsRoot(h, leaves);
    ParentOf(h, leaves, i);
    PathFoldsToRoot(h, i / 2, up);
    PathHasExpectedSides(h, i / 2, up);
    SidesByLevel(i, |leaves|);
    assert path[0] == Step(rest, i % 2 == 0) && path[1..] == above;
    assert Sides(path) == [i % 2 == 0] + Sides(above) by { SidesOfFirst(Step(rest, i % 2 == 0), above); }
  }

  lemma SidesOfFirst(step: Step, rest: seq<Step>)
    ensures Sides([step] + rest) == [step.right] + Sides(rest)
  {
  }

  /** What an accepted proof of any shape shows about its leaf: it is the hash over some of the
      leaves, or part of the input of a node over some of them, or lies below a leaf, or a collision
      was found. */
  datatype Finding =
    | Collides(c: Collision)
    | HashOver(lo: nat, hi: nat)
    | PartOfInput(lo: nat, hi: nat)
    | BelowLeaf(j: nat, steps: nat)

  lemma {:induction false} FoldLastStep(h: TreeHash, leaf: Digest, path: seq<Step>)
    requires path != []
    ensures var acc, s := Fold(h, leaf, path[..|path| - 1]), path[|path| - 1];
      Fold(h, leaf, path) == if s.right then Node(h, acc, s.sibling) else Node(h, s.sibling, acc)
    decreases |path|
  {
    if |path| > 1 {
      var s := path[0];
      FoldLastStep(h, if s.right then Node(h, leaf, s.sibling) else Node(h, s.sibling, leaf), path[1..]);
      assert path[1..][..|path| - 2] == path[..|path| - 1][1..];
    }
  }

  predicate Shows(h: TreeHash, leaf: Digest, leaves: seq<Digest>, path: seq<Step>, f: Finding) {
    match f
    case Collides(c) => IsCollision(h, c)
    case HashOver(lo, hi) => lo < hi <= |leaves| && leaf == TreeRoot(h, leaves[lo..hi])
    case PartOfInput(lo, hi) =>
      lo + 1 < hi <= |leaves| && !IsWide(h, leaf) && IsPart(leaf.bytes, RootInput(h, leaves[lo..hi]))
    case BelowLeaf(j, steps) => j < |leaves| && 0 < steps <= |path| && Fold(h, leaf, path[..steps]) == leaves[j]
  }

  /** The input of the root node of a tree. */
  function RootInput(h: TreeHash, leaves: seq<Digest>): Bytes
    requires |leaves| > 1
  {
    TreeRoot(h, leaves[..Split(|leaves|)]).bytes + TreeRoot(h, leaves[Split(|leaves|)..]).bytes
  }

  predicate IsPart(part: Bytes, whole: Bytes) {
    part <= whole || (|part| <= |whole| && part == whole[|whole| - |part|..])
  }

  /** The half of a tree of n leaves that lies on the other side of its last step. */
  function Half(n: nat, right: bool): (r: (nat, nat))
    requires n > 1
    ensures r.0 < r.1 <= n
  {
    if right then (0, Split(n)) else (Split(n), n)
  }

  /** The input of the root node as folded. */
  function FoldedInput(h: TreeHash, leaf: Digest, path: seq<Step>): Bytes
    requires path != []
  {
    var s, acc := path[|path| - 1], Fold(h, leaf, path[..|path| - 1]);
    if s.right then acc.bytes + s.sibling.bytes else s.sibling.bytes + acc.bytes
  }

  lemma RootInputsAgree(h: TreeHash, leaf: Digest, leaves: seq<Digest>, path: seq<Step>)
    requires |leaves| > 1 && path != [] && Fold(h, leaf, path) == TreeRoot(h, leaves)
    ensures h.hash(FoldedInput(h, leaf, path)) == h.hash(RootInput(h, leaves))
  {
    FoldLastStep(h, leaf, path);
    hide Fold, Split;
  }

  /** Past a root without a collision, what a wide digest has folded to is the hash of the half that
      its last step leaves. */
  lemma HalfAccepted(h: TreeHash, leaf: Digest, leaves: seq<Digest>, path: seq<Step>)
    requires FixedWidth(h) && AllWide(h, leaves) && |leaves| > 1 && path != []
    requires FoldedInput(h, leaf, path) == RootInput(h, leaves)
    requires IsWide(h, Fold(h, leaf, path[..|path| - 1]))
    ensures var (lo, hi) := Half(|leaves|, path[|path| - 1].right);
      Fold(h, leaf, path[..|path| - 1]) == TreeRoot(h, leaves[lo..hi]) && AllWide(h, leaves[lo..hi])
  {
    hide Fold, Split, TreeRoot;
    var k, s, acc := Split(|leaves|), path[|path| - 1], Fold(h, leaf, path[..|path| - 1]);
    assert leaves[0..k] == leaves[..k] && leaves[k..|leaves|] == leaves[k..];
    var left, right := TreeRoot(h, leaves[..k]), TreeRoot(h, leaves[k..]);
    RootIsWide(h, leaves[..k]);
    RootIsWide(h, leaves[k..]);
    if s.right {
      InputSplits(acc, s.sibling, left, right);
    } else {
      InputSplits(s.sibling, acc, left, right);
    }
  }

  lemma FoldIsWide(h: TreeHash, leaf: Digest, path: seq<Step>)
    requires FixedWidth(h) && path != []
    ensures IsWide(h, Fold(h, leaf, path))
  {
    FoldLastStep(h, leaf, path);
    hide Fold;
  }

  lemma CutIsPart(a: Bytes, b: Bytes)
    ensures IsPart(a, a + b) && IsPart(b, a + b)
  {
  }

  function Locate(h: TreeHash, leaf: Digest, leaves: seq<Digest>, path: seq<Step>): (f: Finding)
    requires FixedWidth(h) && AllWide(h, leaves)
    requires leaves != [] && Fold(h, leaf, path) == TreeRoot(h, leaves)
    ensures Shows(h, leaf, leaves, path, f)
    decreases |path|
  {
    assert leaves[0..|leaves|] == leaves;
    if path == [] then HashOver(0, |leaves|)
    else if |leaves| == 1 then
      assert path[..|path|] == path;
      BelowLeaf(0, |path|)
    else
      var folded, built, front := FoldedInput(h, leaf, path), RootInput(h, leaves), path[..|path| - 1];
      RootInputsAgree(h, leaf, leaves, path);
      if folded != built then Collides(Collision(folded, built))
      else if !IsWide(h, Fold(h, leaf, front)) then
        CutIsUnfolded(h, leaf, path);
        PartOfInput(0, |leaves|)
      else
        HalfAccepted(h, leaf, leaves, path);
        var (lo, hi) := Half(|leaves|, path[|path| - 1].right);
        Widened(h, leaf, leaves, path, lo, hi, Locate(h, leaf, leaves[lo..hi], front))
  }

  /** Only the submitted digest itself can fail to be wide. */
  lemma CutIsUnfolded(h: TreeHash, leaf: Digest, path: seq<Step>)
    requires FixedWidth(h) && path != [] && !IsWide(h, Fold(h, leaf, path[..|path| - 1]))
    ensures |path| == 1 && !IsWide(h, leaf) && IsPart(leaf.bytes, FoldedInput(h, leaf, path))
  {
    var front, s := path[..|path| - 1], path[|path| - 1];
    if front != [] {
      FoldIsWide(h, leaf, front);
    }
    CutIsPart(leaf.bytes, s.sibling.bytes);
    CutIsPart(s.sibling.bytes, leaf.bytes);
  }

  /** A finding in a subtree, in terms of the whole tree. */
  function Widened(h: TreeHash, leaf: Digest, leaves: seq<Digest>, path: seq<Step>, lo: nat, hi: nat, f: Finding)
    : (g: Finding)
    requires path != [] && lo < hi <= |leaves| && Shows(h, leaf, leaves[lo..hi], path[..|path| - 1], f)
    ensures Shows(h, leaf, leaves, path, g) && (g.HashOver? ==> lo <= g.lo < g.hi <= hi)
  {
    ShowsInWhole(h, leaf, leaves, path, lo, hi, f);
    Shifted(f, lo)
  }

  function Shifted(f: Finding, lo: nat): Finding {
    match f
    case Collides(_) => f
    case HashOver(l, r) => HashOver(lo + l, lo + r)
    case PartOfInput(l, r) => PartOfInput(lo + l, lo + r)
    case BelowLeaf(j, steps) => BelowLeaf(lo + j, steps)
  }

  lemma ShowsInWhole(h: TreeHash, leaf: Digest, leaves: seq<Digest>, path: seq<Step>, lo: nat, hi: nat, f: Finding)
    requires path != [] && lo < hi <= |leaves| && Shows(h, leaf, leaves[lo..hi], path[..|path| - 1], f)
    ensures var g := Shifted(f, lo);
      Shows(h, leaf, leaves, path, g) && (g.HashOver? ==> lo <= g.lo < g.hi <= hi)
  {
    hide TreeRoot, RootInput, Fold, IsPart;
    match f
    case Collides(_) =>
    case HashOver(l, r) => SliceOfSlice(leaves, lo, hi, l, r);
    case PartOfInput(l, r) => SliceOfSlice(leaves, lo, hi, l, r);
    case BelowLeaf(j, steps) => assert path[..|path| - 1][..steps] == path[..steps];
  }

  lemma SliceOfSlice(leaves: seq<Digest>, lo: nat, hi: nat, l: nat, r: nat)
    requires lo <= hi <= |leaves| && l <= r <= hi - lo
    ensures leaves[lo..hi][l..r] == leaves[lo + l..lo + r]
  {
    forall k | 0 <= k < r - l ensures leaves[lo..hi][l..r][k] == leaves[lo + l..lo + r][k] {
      assert leaves[lo..hi][l + k] == leaves[lo + l + k];
    }
  }

  lemma {:induction false} ExpectedSidesSplit(i: nat, n: nat)
    requires i < n && n > 1
    ensures var k := Split(n);
      ExpectedSides(i, n) == if i < k then ExpectedSides(i, k) + [true] else ExpectedSides(i - k, n - k) + [false]
    decreases n
  {
    hide ExpectedSides;
    if n == 2 {
      TwoLeafSides(i);
    } else {
      var k := Split(n);
      ExpectedSidesSplit(i / 2, (n + 1) / 2);
      SidesByLevel(i, n);
      assert k % 2 == 0 && Split((n + 1) / 2) == k / 2;
      if i < k {
        SidesByLevel(i, k);
        assert (k + 1) / 2 == k / 2;
        assert LevelSide(i, n) + (ExpectedSides(i / 2, k / 2) + [true])
            == LevelSide(i, n) + ExpectedSides(i / 2, k / 2) + [true];
      } else {
        SidesByLevel(i - k, n - k);
        assert (i - k) / 2 == i / 2 - k / 2 && (n - k + 1) / 2 == (n + 1) / 2 - k / 2;
        assert LevelSide(i, n) + (ExpectedSides((i - k) / 2, (n - k + 1) / 2) + [false])
            == LevelSide(i, n) + ExpectedSides((i - k) / 2, (n - k + 1) / 2) + [false];
      }
    }
  }

  lemma TwoLeafSides(i: nat)
    requires i < 2
    ensures ExpectedSides(i, 2) == [i == 0] && ExpectedSides(0, 1) == []
  {
  }

  lemma SidesByLevel(i: nat, n: nat)
    requires i < n
    ensures ExpectedSides(i, n) == LevelSide(i, n) + ExpectedSides(i / 2, (n + 1) / 2)
  {
  }

  /** The sides and the length decide: barring a collision of the hash, an accepted proof is one of
      leaf i exactly when its sides are those of index i and its digest has the length of a hash. */
  lemma {:induction false} SidesDecide(h: TreeHash, leaf: Digest, leaves: seq<Digest>, path: seq<Step>, i: nat)
    requires FixedWidth(h) && AllWide(h, leaves)
    requires i < |leaves| && Fold(h, leaf, path) == TreeRoot(h, leaves)
    ensures var f := Locate(h, leaf, leaves, path);
      !f.Collides? ==>
        (f == HashOver(i, i + 1) <==> IsWide(h, leaf) && Sides(path) == ExpectedSides(i, |leaves|))
    decreases |path|
  {
    hide TreeRoot, Split, ExpectedSides, Shows, FoldedInput, RootInput, FixedWidth;
    TwoLeafSides(0);
    if |leaves| == 1 {
      SingleRoot(h, leaves);
    } else {
      ExpectedSidesSplit(i, |leaves|);
      if path != [] && FoldedInput(h, leaf, path) == RootInput(h, leaves) {
        var front, right := path[..|path| - 1], path[|path| - 1].right;
        assert Sides(path) == Sides(front) + [right];
        if IsWide(h, Fold(h, leaf, front)) {
          HalfAccepted(h, leaf, leaves, path);
          var (lo, hi) := Half(|leaves|, right);
          if lo <= i < hi {
            SidesDecide(h, leaf, leaves[lo..hi], front, i - lo);
            SameSuffix(Sides(front), ExpectedSides(i - lo, hi - lo), right);
          } else {
            assert Sides(path)[|path| - 1] == right;
          }
        } else {
          CutIsUnfolded(h, leaf, path);
        }
      }
    }
  }

  lemma SingleRoot(h: TreeHash, leaves: seq<Digest>)
    requires |leaves| == 1
    ensures TreeRoot(h, leaves) == leaves[0]
  {
  }

  lemma SameSuffix(a: seq<bool>, b: seq<bool>, last: bool)
    ensures a + [last] == b + [last] <==> a == b
  {
    assert a == (a + [last])[..|a|] && b == (b + [last])[..|b|];
  }

  /** Without that check inner nodes pass as leaves: the left half of any tree of three or more
      leaves, a node hash, is accepted with a path that has the sides of no index. */
  lemma {:induction false} InnerNodeAccepted(h: TreeHash, leaves: seq<Digest>)
    requires |leaves| > 2
    ensures var k := Split(|leaves|);
      var path := [Step(TreeRoot(h, leaves[k..]), true)];
      && k > 1 && Fold(h, TreeRoot(h, leaves[..k]), path) == TreeRoot(h, leaves)
      && forall i :: 0 <= i < |leaves| ==> Sides(path) != ExpectedSides(i, |leaves|)
  {
    var n, k := |leaves|, Split(|leaves|);
    var path := [Step(TreeRoot(h, leaves[k..]), true)];
    assert path[1..] == [];
    forall i | 0 <= i < n ensures Sides(path) != ExpectedSides(i, n) {
      ExpectedSidesSplit(i, n);
      if i < k {
        ExpectedSidesSplit(i, k);
        assert |ExpectedSides(i, n)| > 1;
      } else {
        assert ExpectedSides(i, n)[|ExpectedSides(i, n)| - 1] == false;
        assert Sides(path)[|Sides(path)| - 1] == true;
      }
    }
  }

  // ---------------------------------------------------------------- the verifying methods

  /** A path under a root speaks of leaf i of some leaves, as far as the root and the sides tell. */
  predicate ClaimsLeaf(h: TreeHash, path: seq<Step>, root: Digest, leaves: seq<Digest>, i: nat) {
    i < |leaves| && AllWide(h, leaves) && root == TreeRoot(h, leaves) && Sides(path) == ExpectedSides(i, |leaves|)
  }

  /** And then the digest is that leaf, or ForgedLeaf finds a collision. */
  ghost predicate ShowsItsLeaf(h: TreeHash, proof: LedgerProof, root: Digest)
    requires FixedWidth(h) && IsWide(h, proof.leafHash) && Fold(h, proof.leafHash, proof.path) == root
  {
    forall leaves, i :: ClaimsLeaf(h, proof.path, root, leaves, i) && proof.leafHash != leaves[i] ==>
      IsCollision(h, ForgedLeaf(h, proof.leafHash, i, leaves, proof.path))
  }

  /** verify_merkle_proof: accepts exactly when the path folds to the named root; then a proof of a
      hash-long digest with the sides of an index shows that leaf, or yields a collision. */
  method VerifyMerkleProof(h: TreeHash, proof: LedgerProof) returns (ok: bool)
    ensures ok == (Fold(h, proof.leafHash, proof.path) == proof.rootHash)
    ensures ok && FixedWidth(h) && IsWide(h, proof.leafHash) ==> ShowsItsLeaf(h, proof, proof.rootHash)
  {
    var acc, i := proof.leafHash, 0;
    while i < |proof.path|
      invariant i <= |proof.path|
      invariant Fold(h, proof.leafHash, proof.path) == Fold(h, acc, proof.path[i..])
    {
      var step := proof.path[i];
      assert proof.path[i..][1..] == proof.path[i + 1..];
      acc := if step.right then Node(h, acc, step.sibling) else Node(h, step.sibling, acc);
      i := i + 1;
    }
    ok := acc == proof.rootHash;
  }

  /** verify_inclusion_ledger: bound to an anchored root, if one is given. */
  method VerifyInclusionLedger(h: TreeHash, proof: LedgerProof, anchored: Option<Digest>) returns (ok: bool)
    ensures ok <==>
      && Fold(h, proof.leafHash, proof.path) == proof.rootHash
      && (anchored.Some? ==> proof.rootHash == anchored.value)
    ensures ok && anchored.Some? && FixedWidth(h) && IsWide(h, proof.leafHash) ==>
      ShowsItsLeaf(h, proof, anchored.value)
  {
    ok := VerifyMerkleProof(h, proof);
    if ok {
      ok := !(anchored.Some? && proof.rootHash != anchored.value);
    }
  }
}
