// What the log's two verifiers accept, in the terms of the tenant tree: a path with the side of every
// sibling, folded. The tenant verifier does nothing else, so the three agree.
module VerifierShapes {
  import opened Basics
  import opened MerkleTree
  import opened InclusionProof
  import opened TenantTree
  import ConsistencyProof

  /** A path of the log with the sides that an index and a size give it. */
  function WithSides(path: seq<Digest>, sides: seq<bool>): seq<Step>
    requires |path| == |sides|
  {
    seq(|path|, i requires 0 <= i < |path| => Step(path[i], sides[i]))
  }

  lemma {:induction false} SidesAreLength(i: nat, n: nat)
    requires i < n
    ensures |ExpectedSides(i, n)| == PathLength(i, n)
    decreases n
  {
    if n > 1 {
      SidesAreLength(i / 2, (n + 1) / 2);
    }
  }

  lemma WithSidesFirst(path: seq<Digest>, side: bool, sides: seq<bool>)
    requires path != [] && |path| == 1 + |sides|
    ensures WithSides(path, [side] + sides) == [Step(path[0], side)] + WithSides(path[1..], sides)
  {
  }

  lemma FoldFirst(h: TreeHash, acc: Digest, step: Step, rest: seq<Step>)
    ensures Fold(h, acc, [step] + rest)
      == Fold(h, if step.right then Node(h, acc, step.sibling) else Node(h, step.sibling, acc), rest)
  {
    assert ([step] + rest)[1..] == rest;
  }

  lemma {:induction false} ClimbFolds(h: TreeHash, fn: nat, n: nat, acc: Digest, path: seq<Digest>)
    requires fn < n && |path| == |ExpectedSides(fn, n)|
    ensures Climb(h, fn, n - 1, acc, path) == Some(Fold(h, acc, WithSides(path, ExpectedSides(fn, n))))
    decreases n
  {
    hide Node, ExpectedSides;
    if n == 1 {
      TwoLeafSides(0);
    } else {
      SidesByLevel(fn, n);
      assert (n - 1) / 2 == (n + 1) / 2 - 1;
      var rest := ExpectedSides(fn / 2, (n + 1) / 2);
      if LevelSide(fn, n) == [] {
        assert [] + rest == rest;
        ClimbFolds(h, fn / 2, (n + 1) / 2, acc, path);
      } else {
        var right := fn % 2 == 0;
        WithSidesFirst(path, right, rest);
        FoldFirst(h, acc, Step(path[0], right), WithSides(path[1..], rest));
        ClimbFolds(h, fn / 2, (n + 1) / 2, if right then Node(h, acc, path[0]) else Node(h, path[0], acc), path[1..]);
      }
    }
  }

  /** The log's inclusion verifier accepts exactly the proofs that are as long as the index and size ask
      and that the tenant verifier accepts with the sides they give. */
  lemma {:induction false} InclusionIsFold(h: TreeHash, leaf: Digest, index: int, size: int, path: seq<Digest>,
                                           root: Digest)
    ensures Accepts(h, leaf, index, size, path, root) <==>
      && 0 <= index < size && |path| == |ExpectedSides(index, size)|
      && Fold(h, leaf, WithSides(path, ExpectedSides(index, size))) == root
  {
    hide Climb, Fold, ExpectedSides;
    if 0 <= index < size {
      if |path| == |ExpectedSides(index, size)| {
        ClimbFolds(h, index, size, leaf, path);
      } else if Accepts(h, leaf, index, size, path, root) {
        ClimbLength(h, index, size - 1, leaf, path);
        SidesAreLength(index, size);
      }
    }
  }

  // ---------------------------------------------------------------- consistency

  /** The siblings that an old tree has as well: those on the left. */
  function LeftSteps(path: seq<Step>): seq<Step> {
    if path == [] then [] else (if path[0].right then [] else [path[0]]) + LeftSteps(path[1..])
  }

  lemma LeftStepsFirst(step: Step, rest: seq<Step>)
    ensures LeftSteps([step] + rest) == (if step.right then [] else [step]) + LeftSteps(rest)
  {
    assert ([step] + rest)[1..] == rest;
  }

  lemma {:induction false} ClimbPairFolds(h: TreeHash, fn: nat, n: nat, fr: Digest, sr: Digest, path: seq<Digest>)
    requires fn < n && |path| == |ExpectedSides(fn, n)|
    ensures var steps := WithSides(path, ExpectedSides(fn, n));
      ConsistencyProof.ClimbPair(h, fn, n - 1, fr, sr, path)
        == Some((Fold(h, fr, LeftSteps(steps)), Fold(h, sr, steps)))
    decreases n
  {
    hide Node, ExpectedSides, LeftSteps, Fold, WithSides;
    if n == 1 {
      NothingToFold(h, fr, path);
      NothingToFold(h, sr, path);
    } else {
      SidesByLevel(fn, n);
      assert (n - 1) / 2 == (n + 1) / 2 - 1;
      var rest := ExpectedSides(fn / 2, (n + 1) / 2);
      if LevelSide(fn, n) == [] {
        assert [] + rest == rest;
        ClimbPairFolds(h, fn / 2, (n + 1) / 2, fr, sr, path);
      } else {
        var step, above := Step(path[0], fn % 2 == 0), WithSides(path[1..], rest);
        WithSidesFirst(path, step.right, rest);
        FoldFirst(h, sr, step, above);
        LeftStepsFirst(step, above);
        if step.right {
          assert [] + LeftSteps(above) == LeftSteps(above);
          ClimbPairFolds(h, fn / 2, (n + 1) / 2, fr, Node(h, sr, path[0]), path[1..]);
        } else {
          FoldFirst(h, fr, step, LeftSteps(above));
          ClimbPairFolds(h, fn / 2, (n + 1) / 2, Node(h, path[0], fr), Node(h, path[0], sr), path[1..]);
        }
      }
    }
  }

  lemma NothingToFold(h: TreeHash, acc: Digest, path: seq<Digest>)
    requires |path| == |ExpectedSides(0, 1)|
    ensures path == [] && WithSides(path, ExpectedSides(0, 1)) == [] && LeftSteps([]) == [] && Fold(h, acc, []) == acc
  {
  }

  /** How many nodes a tree of n leaves has e levels up. */
  function LevelSize(n: nat, e: nat): nat {
    if e == 0 then n else LevelSize((n + 1) / 2, e - 1)
  }

  /** m times 2^e. */
  function Doubled(m: nat, e: nat): (n: nat)
    ensures m > 0 ==> n > 0
  {
    if e == 0 then m else 2 * Doubled(m, e - 1)
  }

  lemma {:induction false} LevelsSkipped(m: nat, e: nat, second: nat)
    requires m % 2 == 1 && Doubled(m, e) < second
    ensures m < LevelSize(second, e)
    ensures ConsistencyProof.SkipComplete(Doubled(m, e) - 1, second - 1) == (m - 1, LevelSize(second, e) - 1)
    decreases e
  {
    if e > 0 {
      var first := Doubled(m, e);
      assert first == 2 * Doubled(m, e - 1);
      assert (first - 1) % 2 == 1 && (first - 1) / 2 == Doubled(m, e - 1) - 1;
      assert (second - 1) / 2 == (second + 1) / 2 - 1;
      LevelsSkipped(m, e - 1, (second + 1) / 2);
    }
  }

  /** Every size is of that form. */
  lemma {:induction false} OddPart(first: nat) returns (m: nat, e: nat)
    requires first > 0
    ensures m % 2 == 1 && first == Doubled(m, e)
  {
    if first % 2 == 1 {
      m, e := first, 0;
    } else {
      m, e := OddPart(first / 2);
      e := e + 1;
    }
  }

  /** The digests a proof gives: the boundary node, left out where it is the old root, and its path. */
  function Given(m: nat, root1: Digest, proof: seq<Digest>): seq<Digest> {
    if m == 1 then [root1] + proof else proof
  }

  /** The consistency verifier, from an old tree of 2^e times an odd m leaves, as every
      non-empty one has: the proof is the node m - 1
      of the level of complete subtrees with its path in the new tree; all its siblings lead to the new
      root, and those on the left to the old one. */
  lemma {:induction false} ConsistencyIsFolds(h: TreeHash, m: nat, e: nat, second: nat, root1: Digest, root2: Digest,
                                              proof: seq<Digest>)
    requires m % 2 == 1 && Doubled(m, e) < second
    ensures var n, given := LevelSize(second, e), Given(m, root1, proof);
      && m <= n && Doubled(m, e) > 0
      && (ConsistencyProof.Accepts(h, Doubled(m, e), second, root1, root2, proof) <==>
        && |given| == 1 + |ExpectedSides(m - 1, n)|
        && var steps := WithSides(given[1..], ExpectedSides(m - 1, n));
           Fold(h, given[0], steps) == root2 && Fold(h, given[0], LeftSteps(steps)) == root1)
  {
    hide ConsistencyProof.ClimbPair, Fold, ExpectedSides, LeftSteps, WithSides, ConsistencyProof.SkipComplete;
    var first, n, given := Doubled(m, e), LevelSize(second, e), Given(m, root1, proof);
    LevelsSkipped(m, e, second);
    OddMultiple(m, e);
    if given != [] {
      if |given| == 1 + |ExpectedSides(m - 1, n)| {
        ClimbPairFolds(h, m - 1, n, given[0], given[0], given[1..]);
      } else if ConsistencyProof.ClimbPair(h, m - 1, n - 1, given[0], given[0], given[1..]).Some? {
        ConsistencyProof.ClimbPairLength(h, m - 1, n - 1, given[0], given[0], given[1..]);
        SidesAreLength(m - 1, n);
      }
    }
  }

  lemma {:induction false} OddMultiple(m: nat, e: nat)
    requires m % 2 == 1
    ensures Doubled(m, e) > 0 && (ConsistencyProof.IsPowerOfTwo(Doubled(m, e)) <==> m == 1)
  {
    if e == 0 {
      ConsistencyProof.OddPowerOfTwo(m);
    } else {
      OddMultiple(m, e - 1);
      ConsistencyProof.EvenPowerOfTwo(Doubled(m, e));
    }
  }
}
