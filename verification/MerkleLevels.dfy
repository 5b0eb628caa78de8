/** The same trees seen level by level.

    The source builds trees from the top down and checks proofs from the bottom
    up.  `PairUp` is the link: it hashes neighbours of one level into the next
    and promotes an odd last node unchanged.  Roots, inclusion paths and
    consistency proofs all commute with it. */
module MerkleLevels {
  import opened Hashing
  import opened MerkleTree
  import opened Sequences

  function LeafHashes(sha: Sha, leaves: seq<Digest>): (nodes: seq<Digest>)
    ensures |nodes| == |leaves|
  {
    seq(|leaves|, i requires 0 <= i < |leaves| => HashLeaf(sha, leaves[i]))
  }

  function Parent(sha: Sha, nodes: seq<Digest>, j: nat): Digest
    requires 2 * j < |nodes|
  {
    if 2 * j + 1 < |nodes| then HashChildren(sha, nodes[2 * j], nodes[2 * j + 1]) else nodes[2 * j]
  }

  /** The next level up. */
  function PairUp(sha: Sha, nodes: seq<Digest>): (up: seq<Digest>)
    ensures |up| == (|nodes| + 1) / 2
    ensures forall j :: 0 <= j < |up| ==> up[j] == Parent(sha, nodes, j)
  {
    seq((|nodes| + 1) / 2, j requires 0 <= j < (|nodes| + 1) / 2 => Parent(sha, nodes, j))
  }

  lemma PairUpSplits(sha: Sha, nodes: seq<Digest>, half: nat)
    requires 2 * half <= |nodes|
    ensures PairUp(sha, nodes)[..half] == PairUp(sha, nodes[..2 * half])
    ensures PairUp(sha, nodes)[half..] == PairUp(sha, nodes[2 * half..])
  {
    var up, high := PairUp(sha, nodes), PairUp(sha, nodes[2 * half..]);
    forall j | 0 <= j < |high| ensures high[j] == up[half + j] {
      assert Parent(sha, nodes[2 * half..], j) == Parent(sha, nodes, half + j);
    }
  }

  // ---------- the tree over a level ----------

  function TreeRoot(sha: Sha, nodes: seq<Digest>): Digest
    requires |nodes| >= 1
    decreases |nodes|
  {
    if |nodes| == 1 then
      nodes[0]
    else
      var k := SplitPoint(|nodes|);
      HashChildren(sha, TreeRoot(sha, nodes[..k]), TreeRoot(sha, nodes[k..]))
  }

  function TreePath(sha: Sha, nodes: seq<Digest>, index: nat): seq<Digest>
    requires index < |nodes|
    decreases |nodes|
  {
    if |nodes| == 1 then
      []
    else
      var k := SplitPoint(|nodes|);
      if index < k then
        TreePath(sha, nodes[..k], index) + [TreeRoot(sha, nodes[k..])]
      else
        TreePath(sha, nodes[k..], index - k) + [TreeRoot(sha, nodes[..k])]
  }

  function TreeSubproof(sha: Sha, nodes: seq<Digest>, first: nat, fromOldRoot: bool): seq<Digest>
    requires 1 <= first <= |nodes|
    decreases |nodes|
  {
    if first == |nodes| then
      if fromOldRoot then [] else [TreeRoot(sha, nodes)]
    else
      var k := SplitPoint(|nodes|);
      if first <= k then
        TreeSubproof(sha, nodes[..k], first, fromOldRoot) + [TreeRoot(sha, nodes[k..])]
      else
        TreeSubproof(sha, nodes[k..], first - k, false) + [TreeRoot(sha, nodes[..k])]
  }

  function TreeInputs(sha: Sha, nodes: seq<Digest>): set<Preimage>
    requires |nodes| >= 1
    decreases |nodes|
  {
    if |nodes| == 1 then
      {}
    else
      var k := SplitPoint(|nodes|);
      {NodeInput(TreeRoot(sha, nodes[..k]), TreeRoot(sha, nodes[k..]))}
      + TreeInputs(sha, nodes[..k]) + TreeInputs(sha, nodes[k..])
  }

  // ---------- from leaves to the level of leaf hashes ----------

  lemma {:induction false} RootOverLeafHashes(sha: Sha, leaves: seq<Digest>)
    requires |leaves| >= 1
    ensures MerkleRoot(sha, leaves) == TreeRoot(sha, LeafHashes(sha, leaves))
    ensures TreeInputs(sha, LeafHashes(sha, leaves)) <= RootInputs(sha, leaves)
    ensures forall i :: 0 <= i < |leaves| ==> LeafInput(leaves[i]) in RootInputs(sha, leaves)
    decreases |leaves|
  {
    if |leaves| > 1 {
      var k := SplitPoint(|leaves|);
      RootOverLeafHashes(sha, leaves[..k]);
      RootOverLeafHashes(sha, leaves[k..]);
      LeafHashesSplit(sha, leaves, k);
      forall i | 0 <= i < |leaves| ensures LeafInput(leaves[i]) in RootInputs(sha, leaves) {
        assert leaves[i] == if i < k then leaves[..k][i] else leaves[k..][i - k];
      }
    }
  }

  lemma LeafHashesSplit(sha: Sha, leaves: seq<Digest>, k: nat)
    requires k <= |leaves|
    ensures LeafHashes(sha, leaves)[..k] == LeafHashes(sha, leaves[..k])
    ensures LeafHashes(sha, leaves)[k..] == LeafHashes(sha, leaves[k..])
  {
  }

  lemma {:induction false} PathOverLeafHashes(sha: Sha, leaves: seq<Digest>, index: nat)
    requires index < |leaves|
    ensures InclusionPath(sha, leaves, index) == TreePath(sha, LeafHashes(sha, leaves), index)
    decreases |leaves|
  {
    if |leaves| > 1 {
      var k := SplitPoint(|leaves|);
      LeafHashesSplit(sha, leaves, k);
      RootOverLeafHashes(sha, leaves[..k]);
      RootOverLeafHashes(sha, leaves[k..]);
      if index < k {
        PathOverLeafHashes(sha, leaves[..k], index);
      } else {
        PathOverLeafHashes(sha, leaves[k..], index - k);
      }
    }
  }

  lemma {:induction false} SubproofOverLeafHashes(sha: Sha, leaves: seq<Digest>, first: nat, fromOldRoot: bool)
    requires 1 <= first <= |leaves|
    ensures Subproof(sha, leaves, first, fromOldRoot)
         == TreeSubproof(sha, LeafHashes(sha, leaves), first, fromOldRoot)
    decreases |leaves|
  {
    RootOverLeafHashes(sha, leaves);
    if first < |leaves| {
      var k := SplitPoint(|leaves|);
      LeafHashesSplit(sha, leaves, k);
      RootOverLeafHashes(sha, leaves[..k]);
      RootOverLeafHashes(sha, leaves[k..]);
      if first <= k {
        SubproofOverLeafHashes(sha, leaves[..k], first, fromOldRoot);
      } else {
        SubproofOverLeafHashes(sha, leaves[k..], first - k, false);
      }
    }
  }

  // ---------- one level up ----------

  /** Pairing neighbours does not change the root. */
  lemma {:induction false} RootOfPairs(sha: Sha, nodes: seq<Digest>)
    requires |nodes| >= 1
    ensures TreeRoot(sha, PairUp(sha, nodes)) == TreeRoot(sha, nodes)
    decreases |nodes|
  {
    if |nodes| >= 3 {
      var half, low, high, up := SplitOfPairs(sha, nodes);
      RootOfPairs(sha, low);
      RootOfPairs(sha, high);
    } else if |nodes| == 1 {
      assert PairUp(sha, nodes) == nodes;
    }
  }

  /** The tree over the next level splits where this one does. */
  lemma SplitOfPairs(sha: Sha, nodes: seq<Digest>)
    returns (half: nat, low: seq<Digest>, high: seq<Digest>, up: seq<Digest>)
    requires |nodes| >= 3
    ensures 1 <= half < |up| && half == SplitPoint(|up|) && up == PairUp(sha, nodes)
    ensures 2 * half == SplitPoint(|nodes|) == |low| < |nodes|
    ensures low == nodes[..2 * half] && high == nodes[2 * half..] && |high| == |nodes| - 2 * half
    ensures up[..half] == PairUp(sha, low) && up[half..] == PairUp(sha, high)
  {
    up := PairUp(sha, nodes);
    SplitPointHalves(|nodes|);
    half := SplitPoint(|up|);
    low, high := nodes[..2 * half], nodes[2 * half..];
    PairUpSplits(sha, nodes, half);
  }

  /** The inputs of the next level are inputs of the tree. */
  lemma {:induction false} InputsOfPairs(sha: Sha, nodes: seq<Digest>)
    requires |nodes| >= 1
    ensures TreeInputs(sha, PairUp(sha, nodes)) <= TreeInputs(sha, nodes)
    decreases |nodes|
  {
    if |nodes| >= 3 {
      var half, low, high, up := SplitOfPairs(sha, nodes);
      RootOfPairs(sha, low);
      RootOfPairs(sha, high);
      InputsOfPairs(sha, low);
      InputsOfPairs(sha, high);
    } else if |nodes| == 1 {
      assert PairUp(sha, nodes) == nodes;
    }
  }

  /** So are the inputs that the step to the next level hashes. */
  lemma {:induction false} PairIsInput(sha: Sha, nodes: seq<Digest>, j: nat)
    requires 2 * j + 1 < |nodes|
    ensures NodeInput(nodes[2 * j], nodes[2 * j + 1]) in TreeInputs(sha, nodes)
    decreases |nodes|
  {
    hide TreeInputs, PairUp;
    if |nodes| >= 3 {
      var half, low, high, up := SplitOfPairs(sha, nodes);
      SubtreeInputs(sha, nodes, low, high);
      if j < half {
        PairIsInput(sha, low, j);
        assert low[2 * j] == nodes[2 * j] && low[2 * j + 1] == nodes[2 * j + 1];
      } else {
        var i := j - half;
        PairIsInput(sha, high, i);
        assert high[2 * i] == nodes[2 * j] && high[2 * i + 1] == nodes[2 * j + 1];
      }
    } else {
      PairInSmallTree(sha, nodes);
    }
  }

  lemma SubtreeInputs(sha: Sha, nodes: seq<Digest>, low: seq<Digest>, high: seq<Digest>)
    requires Subtrees(nodes, low, high)
    ensures TreeInputs(sha, low) <= TreeInputs(sha, nodes)
    ensures TreeInputs(sha, high) <= TreeInputs(sha, nodes)
  {
  }

  lemma PairInSmallTree(sha: Sha, nodes: seq<Digest>)
    requires |nodes| == 2
    ensures NodeInput(nodes[0], nodes[1]) in TreeInputs(sha, nodes)
  {
    assert nodes[..1] == [nodes[0]] && nodes[1..] == [nodes[1]];
  }

  /** The sibling that the path of node `2 * j` (or, if `odd`, of `2 * j + 1`)
      uses on this level, if any. */
  function Sibling(nodes: seq<Digest>, j: nat, odd: bool): seq<Digest>
    requires NodeIndex(j, odd) < |nodes|
  {
    if odd then [nodes[2 * j]]
    else if 2 * j + 1 < |nodes| then [nodes[2 * j + 1]]
    else []
  }

  function NodeIndex(j: nat, odd: bool): nat {
    if odd then 2 * j + 1 else 2 * j
  }

  // The recursive cases, for a tree given by its two subtrees.

  ghost predicate Subtrees(nodes: seq<Digest>, low: seq<Digest>, high: seq<Digest>) {
    |nodes| >= 2 && |low| == SplitPoint(|nodes|) && low == nodes[..|low|] && high == nodes[|low|..]
  }

  lemma LowPath(sha: Sha, nodes: seq<Digest>, low: seq<Digest>, high: seq<Digest>, index: nat)
    requires Subtrees(nodes, low, high) && index < |low|
    ensures TreePath(sha, nodes, index) == TreePath(sha, low, index) + [TreeRoot(sha, high)]
  {
  }

  lemma HighPath(sha: Sha, nodes: seq<Digest>, low: seq<Digest>, high: seq<Digest>, index: nat, rest: nat)
    requires Subtrees(nodes, low, high) && index == |low| + rest < |nodes|
    ensures TreePath(sha, nodes, index) == TreePath(sha, high, rest) + [TreeRoot(sha, low)]
  {
    hide TreeRoot, SplitPoint;
    assert index - SplitPoint(|nodes|) == rest;
  }

  lemma LowSubproof(sha: Sha, nodes: seq<Digest>, low: seq<Digest>, high: seq<Digest>, first: nat, fromOldRoot: bool)
    requires Subtrees(nodes, low, high) && 1 <= first <= |low|
    ensures TreeSubproof(sha, nodes, first, fromOldRoot)
         == TreeSubproof(sha, low, first, fromOldRoot) + [TreeRoot(sha, high)]
  {
  }

  lemma HighSubproof(
    sha: Sha, nodes: seq<Digest>, low: seq<Digest>, high: seq<Digest>, first: nat, rest: nat, fromOldRoot: bool)
    requires Subtrees(nodes, low, high) && first == |low| + rest < |nodes| && rest >= 1
    ensures TreeSubproof(sha, nodes, first, fromOldRoot)
         == TreeSubproof(sha, high, rest, false) + [TreeRoot(sha, low)]
  {
    assert first - SplitPoint(|nodes|) == rest;
  }

  /** An inclusion path is the sibling on this level followed by the path of the
      parent on the next one. */
  lemma {:induction false} PathOfPairs(sha: Sha, nodes: seq<Digest>, j: nat, odd: bool)
    requires NodeIndex(j, odd) < |nodes|
    ensures TreePath(sha, nodes, NodeIndex(j, odd))
         == Sibling(nodes, j, odd) + TreePath(sha, PairUp(sha, nodes), j)
    decreases |nodes|
  {
    hide TreePath, TreeRoot;
    if |nodes| >= 3 {
      var half, low, high, up := SplitOfPairs(sha, nodes);
      var upLow, upHigh := PairUp(sha, low), PairUp(sha, high);
      var sibling := Sibling(nodes, j, odd);
      if j < half {
        RootOfPairs(sha, high);
        PathOfPairs(sha, low, j, odd);
        assert Sibling(low, j, odd) == sibling;
        LowPath(sha, nodes, low, high, NodeIndex(j, odd));
        LowPath(sha, up, upLow, upHigh, j);
        ConcatAssociative(sibling, TreePath(sha, upLow, j), [TreeRoot(sha, high)]);
      } else {
        RootOfPairs(sha, low);
        PathOfPairs(sha, high, j - half, odd);
        SiblingInHigh(nodes, half, j, odd);
        HighPath(sha, nodes, low, high, NodeIndex(j, odd), NodeIndex(j - half, odd));
        HighPath(sha, up, upLow, upHigh, j, j - half);
        ConcatAssociative(sibling, TreePath(sha, upHigh, j - half), [TreeRoot(sha, low)]);
      }
    } else {
      PathInSmallTree(sha, nodes, j, odd);
    }
  }

  lemma PathInSmallTree(sha: Sha, nodes: seq<Digest>, j: nat, odd: bool)
    requires NodeIndex(j, odd) < |nodes| <= 2
    ensures TreePath(sha, nodes, NodeIndex(j, odd))
         == Sibling(nodes, j, odd) + TreePath(sha, PairUp(sha, nodes), j)
  {
    if |nodes| == 2 {
      assert nodes[..1] == [nodes[0]] && nodes[1..] == [nodes[1]];
    }
  }

  lemma SiblingInHigh(nodes: seq<Digest>, half: nat, j: nat, odd: bool)
    requires half <= j && NodeIndex(j, odd) < |nodes|
    ensures NodeIndex(j - half, odd) < |nodes[2 * half..]|
    ensures Sibling(nodes[2 * half..], j - half, odd) == Sibling(nodes, j, odd)
  {
    var high := nodes[2 * half..];
    assert 2 * (j - half) + 2 * half == 2 * j;
    if odd {
      assert high[2 * (j - half)] == nodes[2 * j];
    } else if 2 * j + 1 < |nodes| {
      assert high[2 * (j - half) + 1] == nodes[2 * j + 1];
    }
  }

  /** A path is no longer than the number of levels, the base-two logarithm of
      the size rounded up. */
  lemma {:induction false} PathLength(sha: Sha, nodes: seq<Digest>, index: nat)
    requires index < |nodes|
    ensures |TreePath(sha, nodes, index)| <= BitLength(|nodes| - 1)
    decreases |nodes|
  {
    hide TreePath, PairUp;
    if |nodes| >= 2 {
      var up, j, odd := PairUp(sha, nodes), index / 2, index % 2 == 1;
      PathOfPairs(sha, nodes, j, odd);
      PathLength(sha, up, j);
      HalvedBitLength(|nodes|, |up|);
    } else {
      LonePath(sha, nodes);
    }
  }

  lemma LonePath(sha: Sha, nodes: seq<Digest>)
    requires |nodes| == 1
    ensures TreePath(sha, nodes, 0) == []
  {
  }

  lemma HalvedBitLength(n: nat, half: nat)
    requires n >= 2 && half == (n + 1) / 2
    ensures BitLength(n - 1) == 1 + BitLength(half - 1)
  {
    assert (n - 1) / 2 == half - 1;
  }

  /** A prefix of even size can be paired up first. */
  lemma {:induction false} SubproofOfPairs(sha: Sha, nodes: seq<Digest>, pairs: nat, fromOldRoot: bool)
    requires 1 <= pairs && 2 * pairs <= |nodes|
    ensures TreeSubproof(sha, nodes, 2 * pairs, fromOldRoot)
         == TreeSubproof(sha, PairUp(sha, nodes), pairs, fromOldRoot)
    decreases |nodes|
  {
    if 2 * pairs == |nodes| {
      RootOfPairs(sha, nodes);
    } else {
      hide TreeSubproof, TreeRoot;
      var half, low, high, up := SplitOfPairs(sha, nodes);
      var upLow, upHigh := PairUp(sha, low), PairUp(sha, high);
      if pairs <= half {
        RootOfPairs(sha, high);
        SubproofOfPairs(sha, low, pairs, fromOldRoot);
        LowSubproof(sha, nodes, low, high, 2 * pairs, fromOldRoot);
        LowSubproof(sha, up, upLow, upHigh, pairs, fromOldRoot);
      } else {
        RootOfPairs(sha, low);
        SubproofOfPairs(sha, high, pairs - half, false);
        HighSubproof(sha, nodes, low, high, 2 * pairs, 2 * (pairs - half), fromOldRoot);
        HighSubproof(sha, up, upLow, upHigh, pairs, pairs - half, fromOldRoot);
      }
    }
  }

  /** A prefix of odd size ends in a complete node: the proof is that node and
      its inclusion path. */
  lemma {:induction false} OddSubproof(sha: Sha, nodes: seq<Digest>, j: nat)
    requires 2 * j + 1 < |nodes| || |nodes| == 1 + j == 1
    ensures TreeSubproof(sha, nodes, 2 * j + 1, false) == [nodes[2 * j]] + TreePath(sha, nodes, 2 * j)
    decreases |nodes|
  {
    hide TreePath, TreeSubproof, TreeRoot, PairUp;
    if |nodes| >= 3 {
      var half, low, high, up := SplitOfPairs(sha, nodes);
      var end := [nodes[2 * j]];
      if j < half {
        OddSubproof(sha, low, j);
        LowSubproof(sha, nodes, low, high, 2 * j + 1, false);
        LowPath(sha, nodes, low, high, 2 * j);
        ConcatAssociative(end, TreePath(sha, low, 2 * j), [TreeRoot(sha, high)]);
      } else {
        var i := j - half;
        OddSubproof(sha, high, i);
        assert high[2 * i] == nodes[2 * j];
        HighSubproof(sha, nodes, low, high, 2 * j + 1, 2 * i + 1, false);
        HighPath(sha, nodes, low, high, 2 * j, 2 * i);
        ConcatAssociative(end, TreePath(sha, high, 2 * i), [TreeRoot(sha, low)]);
      }
    } else {
      OddSubproofInSmallTree(sha, nodes);
    }
  }

  lemma OddSubproofInSmallTree(sha: Sha, nodes: seq<Digest>)
    requires 1 <= |nodes| <= 2
    ensures TreeSubproof(sha, nodes, 1, false) == [nodes[0]] + TreePath(sha, nodes, 0)
  {
    if |nodes| == 2 {
      LowSubproof(sha, nodes, [nodes[0]], [nodes[1]], 1, false);
      LowPath(sha, nodes, [nodes[0]], [nodes[1]], 0);
    }
  }

  /** Starting from the old root only shortens the proof of a prefix of one. */
  lemma {:induction false} OddSubproofFromOldRoot(sha: Sha, nodes: seq<Digest>, j: nat)
    requires 2 * j + 1 < |nodes|
    ensures TreeSubproof(sha, nodes, 2 * j + 1, true)
         == (if j == 0 then [] else [nodes[2 * j]]) + TreePath(sha, nodes, 2 * j)
    decreases |nodes|
  {
    if |nodes| >= 3 {
      var half, low, high, up := SplitOfPairs(sha, nodes);
      if j < half {
        OddSubproofFromOldRoot(sha, low, j);
        ConcatAssociative(if j == 0 then [] else [nodes[2 * j]], TreePath(sha, low, 2 * j), [TreeRoot(sha, high)]);
      } else {
        OddSubproof(sha, high, j - half);
        OddSubproof(sha, nodes, j);
      }
    }
  }
}
