/** `verify_merkle_inclusion_path` of apps/core/merkle.py: the bottom-up check
    of an inclusion path, and why it agrees with the top-down construction. */
module MerkleInclusion {
  import opened Hashing
  import opened MerkleTree
  import opened MerkleLevels
  import opened Wrappers

  datatype Reason =
    | InvalidTreeBounds
    | MalformedLeafDigest
    | MalformedAuditPathDigest
    | AuditPathLengthMismatch
    | MerkleRootMismatch

  datatype Verdict = Verdict(
    valid: bool,
    recomputedRoot: Option<Digest>,
    leafHash: Option<Digest>,
    reasons: seq<Reason>)

  /** Where an ascent ends: the digest reached, whether it reached the root with
      no sibling left over or missing, and whether a sibling was no digest. */
  datatype Ascent = Ascent(running: Digest, complete: bool, malformed: bool)

  /** The ascent of section 2.1.3.2 of RFC 9162, one tree level at a time:
      `fn` and `sn` are the indices of the node and of the last node of the
      level.  A last node without sibling moves up unchanged. */
  function Ascend(sha: Sha, fn: nat, sn: nat, running: Digest, path: seq<HexText>): Ascent
    requires fn <= sn
    decreases sn
  {
    if sn == 0 then
      Ascent(running, path == [], false)
    else if fn == sn && fn % 2 == 0 then
      Ascend(sha, fn / 2, sn / 2, running, path)
    else if path == [] then
      Ascent(running, false, false)
    else if path[0].Other? then
      Ascent(running, false, true)
    else
      var sibling := path[0].digest;
      var parent := if fn % 2 == 1 then HashChildren(sha, sibling, running) else HashChildren(sha, running, sibling);
      Ascend(sha, fn / 2, sn / 2, parent, path[1..])
  }

  function AscentReasons(ascent: Ascent, expectedRoot: HexText): seq<Reason> {
    (if ascent.malformed then [MalformedAuditPathDigest] else [])
    + (if ascent.complete then [] else [AuditPathLengthMismatch])
    + (if expectedRoot == Hex(ascent.running) then [] else [MerkleRootMismatch])
  }

  function InclusionVerdict(
    sha: Sha, leaf: HexText, index: int, size: int, path: seq<HexText>, expectedRoot: HexText): Verdict
  {
    if size <= 0 || index < 0 || index >= size then
      Verdict(false, None, None, [InvalidTreeBounds])
    else if leaf.Other? then
      Verdict(false, None, None, [MalformedLeafDigest])
    else
      var leafHash := HashLeaf(sha, leaf.digest);
      var ascent := Ascend(sha, index, size - 1, leafHash, path);
      var reasons := AscentReasons(ascent, expectedRoot);
      Verdict(reasons == [], Some(ascent.running), Some(leafHash), reasons)
  }

  method VerifyInclusionPath(
    sha: Sha, leaf: HexText, index: int, size: int, path: seq<HexText>, expectedRoot: HexText)
    returns (verdict: Verdict)
    ensures verdict == InclusionVerdict(sha, leaf, index, size, path, expectedRoot)
  {
    if size <= 0 || index < 0 || index >= size {
      return Verdict(false, None, None, [InvalidTreeBounds]);
    }
    if leaf.Other? {
      return Verdict(false, None, None, [MalformedLeafDigest]);
    }
    var leafHash := HashLeaf(sha, leaf.digest);
    var reasons: seq<Reason> := [];
    var fn, sn, running := index, size - 1, leafHash;
    ghost var ascent := Ascend(sha, fn, sn, running, path);
    var k := 0;
    while k < |path|
      invariant 0 <= k <= |path| && 0 <= fn <= sn
      invariant Ascend(sha, fn, sn, running, path[k..]) == ascent
      invariant reasons == []
    {
      if sn == 0 {
        reasons := [AuditPathLengthMismatch];
        break;
      }
      ghost var rest := path[k..];
      if path[k].Other? {
        StripAll(sha, fn, sn, running, rest);
        reasons := [MalformedAuditPathDigest];
        break;
      }
      var sibling := path[k].digest;
      if fn % 2 == 1 || fn == sn {
        ghost var before := running;
        running := HashChildren(sha, sibling, running);
        while fn % 2 == 0 && fn != 0
          invariant 0 < fn <= sn && (fn % 2 == 1 || fn == sn)
          invariant Ascend(sha, fn, sn, before, rest) == ascent
        {
          fn, sn := fn / 2, sn / 2;
        }
      } else {
        running := HashChildren(sha, running, sibling);
      }
      fn, sn := fn / 2, sn / 2;
      k := k + 1;
    }
    if sn != 0 && AuditPathLengthMismatch !in reasons {
      reasons := reasons + [AuditPathLengthMismatch];
    }
    if expectedRoot != Hex(running) {
      reasons := reasons + [MerkleRootMismatch];
    }
    StripAll(sha, fn, sn, running, path[k..]);
    verdict := Verdict(reasons == [], Some(running), Some(leafHash), reasons);
  }

  /** Levels on which the node has no sibling use nothing of the path, so an
      empty path or a malformed next sibling ends the ascent wherever it stands. */
  lemma {:induction false} StripAll(sha: Sha, fn: nat, sn: nat, running: Digest, path: seq<HexText>)
    requires fn <= sn
    ensures sn != 0 && path == [] ==> Ascend(sha, fn, sn, running, path) == Ascent(running, false, false)
    ensures sn != 0 && path != [] && path[0].Other? ==>
              Ascend(sha, fn, sn, running, path) == Ascent(running, false, true)
    decreases sn
  {
    if sn != 0 && fn == sn && fn % 2 == 0 {
      StripAll(sha, fn / 2, sn / 2, running, path);
    }
  }

  // ---------- completeness ----------

  lemma {:induction false} AscentReachesRoot(sha: Sha, nodes: seq<Digest>, index: nat)
    requires index < |nodes|
    ensures Ascend(sha, index, |nodes| - 1, nodes[index], Texts(TreePath(sha, nodes, index)))
         == Ascent(TreeRoot(sha, nodes), true, false)
    decreases |nodes|
  {
    hide TreePath, TreeRoot;
    if |nodes| == 1 {
      LonePath(sha, nodes);
      LoneRoot(sha, nodes);
    } else {
      var up, j, odd := PairUp(sha, nodes), index / 2, index % 2 == 1;
      PathOfPairs(sha, nodes, j, odd);
      RootOfPairs(sha, nodes);
      AscentReachesRoot(sha, up, j);
      var sibling, rest := Sibling(nodes, j, odd), TreePath(sha, up, j);
      assert Texts(sibling + rest)[|sibling|..] == Texts(rest);
      assert (|nodes| - 1) / 2 == |up| - 1;
    }
  }

  lemma LoneRoot(sha: Sha, nodes: seq<Digest>)
    requires |nodes| == 1
    ensures TreeRoot(sha, nodes) == nodes[0]
  {
  }

  /** A path is built exactly for the indices of the tree; it is accepted, and it
      has at most as many digests as the base-two logarithm of the tree size,
      rounded up. */
  lemma InclusionComplete(sha: Sha, leaves: seq<Digest>, index: int)
    ensures BuildInclusionProof(sha, leaves, index).Ok? <==> 0 <= index < |leaves|
    ensures 0 <= index < |leaves| ==>
              var path := BuildInclusionProof(sha, leaves, index).value;
              && |path| <= BitLength(|leaves| - 1)
              && InclusionVerdict(
                   sha, Hex(leaves[index]), index, |leaves|, Texts(path), Hex(MerkleRoot(sha, leaves))).valid
  {
    if 0 <= index < |leaves| {
      BuiltPathAccepted(sha, leaves, index);
    }
  }

  lemma BuiltPathAccepted(sha: Sha, leaves: seq<Digest>, index: nat)
    requires index < |leaves|
    ensures |InclusionPath(sha, leaves, index)| <= BitLength(|leaves| - 1)
    ensures Ascend(sha, index, |leaves| - 1, HashLeaf(sha, leaves[index]), Texts(InclusionPath(sha, leaves, index)))
         == Ascent(MerkleRoot(sha, leaves), true, false)
  {
    hide MerkleRoot, InclusionPath, TreeRoot, TreePath, BitLength, Ascend;
    var nodes := LeafHashes(sha, leaves);
    RootOverLeafHashes(sha, leaves);
    PathOverLeafHashes(sha, leaves, index);
    AscentReachesRoot(sha, nodes, index);
    PathLength(sha, nodes, index);
  }

  // ---------- path length ----------

  /** How many siblings a node has on its way to the root. */
  function SiblingCount(fn: nat, sn: nat): nat
    requires fn <= sn
    decreases sn
  {
    if sn == 0 then 0
    else (if fn == sn && fn % 2 == 0 then 0 else 1) + SiblingCount(fn / 2, sn / 2)
  }

  lemma {:induction false} BuiltPathLength(sha: Sha, nodes: seq<Digest>, index: nat)
    requires index < |nodes|
    ensures |TreePath(sha, nodes, index)| == SiblingCount(index, |nodes| - 1)
    decreases |nodes|
  {
    hide TreePath;
    if |nodes| == 1 {
      LonePath(sha, nodes);
    } else {
      var up, j, odd := PairUp(sha, nodes), index / 2, index % 2 == 1;
      PathOfPairs(sha, nodes, j, odd);
      BuiltPathLength(sha, up, j);
      assert (|nodes| - 1) / 2 == |up| - 1;
    }
  }

  /** Some sibling that the ascent gets to is not a digest. */
  ghost predicate MalformedWithin(path: seq<HexText>, count: nat) {
    exists k :: 0 <= k < |path| && k < count && path[k].Other?
  }

  lemma {:induction false} AscentOutcome(sha: Sha, fn: nat, sn: nat, running: Digest, path: seq<HexText>)
    requires fn <= sn
    ensures var ascent, count := Ascend(sha, fn, sn, running, path), SiblingCount(fn, sn);
      && (ascent.malformed <==> MalformedWithin(path, count))
      && (ascent.complete <==> |path| == count && !MalformedWithin(path, count))
    decreases sn
  {
    var count := SiblingCount(fn, sn);
    if sn == 0 {
    } else if fn == sn && fn % 2 == 0 {
      AscentOutcome(sha, fn / 2, sn / 2, running, path);
    } else if path != [] && path[0].Hex? {
      var sibling := path[0].digest;
      var parent := if fn % 2 == 1 then HashChildren(sha, sibling, running) else HashChildren(sha, running, sibling);
      AscentOutcome(sha, fn / 2, sn / 2, parent, path[1..]);
      if MalformedWithin(path, count) {
        var k :| 0 <= k < |path| && k < count && path[k].Other?;
        assert path[1..][k - 1].Other?;
      }
      if MalformedWithin(path[1..], count - 1) {
        var k :| 0 <= k < |path[1..]| && k < count - 1 && path[1..][k].Other?;
        assert path[k + 1].Other?;
      }
    }
  }

  /** What each reason of a verdict means: only well-formed paths of exactly the
      length that is built escape the first two. */
  lemma InclusionReasons(
    sha: Sha, leaves: seq<Digest>, leaf: Digest, index: nat, path: seq<HexText>, expectedRoot: HexText)
    requires index < |leaves|
    ensures var verdict := InclusionVerdict(sha, Hex(leaf), index, |leaves|, path, expectedRoot);
      var built := |InclusionPath(sha, leaves, index)|;
      && (MalformedAuditPathDigest in verdict.reasons <==> MalformedWithin(path, built))
      && (AuditPathLengthMismatch in verdict.reasons <==> |path| != built || MalformedWithin(path, built))
      && (MerkleRootMismatch in verdict.reasons <==> expectedRoot != Hex(verdict.recomputedRoot.value))
      && (verdict.valid ==> |path| == built)
  {
    hide Ascend, InclusionPath, TreePath, LeafHashes;
    PathOverLeafHashes(sha, leaves, index);
    BuiltPathLength(sha, LeafHashes(sha, leaves), index);
    AscentOutcome(sha, index, |leaves| - 1, HashLeaf(sha, leaf), path);
  }

  /** The verdicts on sizes, indices and leaves that make no sense; otherwise the leaf hash
      is the root of the tree that has only this leaf. */
  lemma VerdictCases(sha: Sha, leaf: HexText, index: int, size: int, path: seq<HexText>, expectedRoot: HexText)
    ensures var verdict := InclusionVerdict(sha, leaf, index, size, path, expectedRoot);
      && (verdict.valid <==> verdict.reasons == [])
      && (InvalidTreeBounds in verdict.reasons <==> !(0 <= index < size))
      && (MalformedLeafDigest in verdict.reasons <==> 0 <= index < size && leaf.Other?)
      && (verdict.leafHash.Some? <==> 0 <= index < size && leaf.Hex?)
      && (verdict.recomputedRoot.Some? <==> verdict.leafHash.Some?)
      && (verdict.leafHash == None ==> |verdict.reasons| == 1)
      && (verdict.leafHash.Some? ==> verdict.leafHash.value == MerkleRoot(sha, [leaf.digest]))
      && (verdict.leafHash.Some? && size == 1 && path == [] ==> verdict.recomputedRoot == verdict.leafHash)
  {
  }

  // ---------- soundness ----------

  /** Every input hashed by `Ascend`. */
  function AscentInputs(sha: Sha, fn: nat, sn: nat, running: Digest, path: seq<HexText>): set<Preimage>
    requires fn <= sn
    decreases sn
  {
    if sn == 0 then
      {}
    else if fn == sn && fn % 2 == 0 then
      AscentInputs(sha, fn / 2, sn / 2, running, path)
    else if path == [] || path[0].Other? then
      {}
    else
      var sibling := path[0].digest;
      var input := if fn % 2 == 1 then NodeInput(sibling, running) else NodeInput(running, sibling);
      {input} + AscentInputs(sha, fn / 2, sn / 2, sha(input), path[1..])
  }

  /** An ascent that ends in the root of a tree started from that tree's node and
      used that node's path. */
  lemma {:induction false} AscentBinds(
    sha: Sha, nodes: seq<Digest>, index: nat, running: Digest, path: seq<HexText>, inputs: set<Preimage>)
    requires index < |nodes| && !Collides(sha, inputs)
    requires TreeInputs(sha, nodes) <= inputs
    requires AscentInputs(sha, index, |nodes| - 1, running, path) <= inputs
    requires Ascend(sha, index, |nodes| - 1, running, path) == Ascent(TreeRoot(sha, nodes), true, false)
    ensures running == nodes[index] && path == Texts(TreePath(sha, nodes, index))
    decreases |nodes|
  {
    hide TreePath, TreeRoot, TreeInputs;
    if |nodes| == 1 {
      LonePath(sha, nodes);
      LoneRoot(sha, nodes);
    } else {
      var up, j, odd := PairUp(sha, nodes), index / 2, index % 2 == 1;
      PathOfPairs(sha, nodes, j, odd);
      RootOfPairs(sha, nodes);
      InputsOfPairs(sha, nodes);
      assert (|nodes| - 1) / 2 == |up| - 1;
      if index == |nodes| - 1 && !odd {
        AscentBinds(sha, up, j, running, path, inputs);
      } else {
        var sibling := path[0].digest;
        var input := if odd then NodeInput(sibling, running) else NodeInput(running, sibling);
        AscentBinds(sha, up, j, sha(input), path[1..], inputs);
        PairIsInput(sha, nodes, j);
        assert input == NodeInput(nodes[2 * j], nodes[2 * j + 1]);
        SameChildren(input, sibling, running, nodes[2 * j], nodes[2 * j + 1], odd);
        assert path == [path[0]] + path[1..];
      }
    }
  }

  lemma SameChildren(input: Preimage, sibling: Digest, running: Digest, left: Digest, right: Digest, odd: bool)
    requires input == if odd then NodeInput(sibling, running) else NodeInput(running, sibling)
    requires input == NodeInput(left, right)
    ensures if odd then sibling == left && running == right else running == left && sibling == right
  {
    if odd {
      NodeInputInjective(sibling, running, left, right);
    } else {
      NodeInputInjective(running, sibling, left, right);
    }
  }

  /** Everything hashed by one verification. */
  function VerificationInputs(sha: Sha, leaf: HexText, index: int, size: int, path: seq<HexText>): set<Preimage> {
    if size <= 0 || index < 0 || index >= size || leaf.Other? then
      {}
    else
      {LeafInput(leaf.digest)} + AscentInputs(sha, index, size - 1, HashLeaf(sha, leaf.digest), path)
  }

  /** An accepted proof names the leaf that is there and is, digest for digest,
      the proof that would be built; or the inputs hashed for the root and for the
      verification contain a collision. */
  lemma InclusionSound(sha: Sha, leaves: seq<Digest>, leaf: HexText, index: int, path: seq<HexText>)
    requires InclusionVerdict(sha, leaf, index, |leaves|, path, Hex(MerkleRoot(sha, leaves))).valid
    ensures 0 <= index < |leaves|
    ensures (leaf == Hex(leaves[index]) && path == Texts(InclusionPath(sha, leaves, index)))
            || Collides(sha, RootInputs(sha, leaves) + VerificationInputs(sha, leaf, index, |leaves|, path))
  {
    hide MerkleRoot, InclusionPath, TreeRoot, TreePath, RootInputs, TreeInputs;
    var inputs := RootInputs(sha, leaves) + VerificationInputs(sha, leaf, index, |leaves|, path);
    if !Collides(sha, inputs) {
      var nodes := LeafHashes(sha, leaves);
      RootOverLeafHashes(sha, leaves);
      PathOverLeafHashes(sha, leaves, index);
      AscentBinds(sha, nodes, index, HashLeaf(sha, leaf.digest), path, inputs);
      assert LeafInput(leaf.digest) == LeafInput(leaves[index]);
      LeafInputInjective(leaf.digest, leaves[index]);
    }
  }

  // ---------- soundness without trusting the claimed size ----------

  /** The digest of some node of the tree over `leaves`. */
  ghost predicate TreeDigest(sha: Sha, leaves: seq<Digest>, digest: Digest) {
    exists x :: x in RootInputs(sha, leaves) && sha(x) == digest
  }

  /** The inputs of a tree are its leaves' and, for inner nodes, over digests of the tree;
      for no leaves, the empty input. */
  lemma {:induction false} InputsOfTree(sha: Sha, leaves: seq<Digest>, x: Preimage)
    requires x in RootInputs(sha, leaves)
    ensures x == Raw([]) || IsLeafInput(leaves, x) || IsInnerInput(sha, leaves, x)
    decreases |leaves|
  {
    hide MerkleRoot, RootInput;
    if |leaves| == 1 {
      assert x == LeafInput(leaves[0]);
    } else if |leaves| >= 2 {
      var low, high := leaves[..SplitPoint(|leaves|)], leaves[SplitPoint(|leaves|)..];
      assert RootInput(sha, low) in RootInputs(sha, leaves) && RootInput(sha, high) in RootInputs(sha, leaves);
      if x in RootInputs(sha, low) {
        InputsOfTree(sha, low, x);
        InputsOfPart(sha, leaves, low, 0, x);
      } else if x in RootInputs(sha, high) {
        InputsOfTree(sha, high, x);
        InputsOfPart(sha, leaves, high, |low|, x);
      } else {
        assert x == NodeInput(MerkleRoot(sha, low), MerkleRoot(sha, high));
      }
    }
  }

  ghost predicate IsLeafInput(leaves: seq<Digest>, x: Preimage) {
    exists i :: 0 <= i < |leaves| && x == LeafInput(leaves[i])
  }

  ghost predicate IsInnerInput(sha: Sha, leaves: seq<Digest>, x: Preimage) {
    exists left, right :: x == NodeInput(left, right) && TreeDigest(sha, leaves, left) && TreeDigest(sha, leaves, right)
  }

  lemma InputsOfPart(sha: Sha, leaves: seq<Digest>, part: seq<Digest>, from: nat, x: Preimage)
    requires from + |part| <= |leaves| && part == leaves[from..from + |part|]
    requires RootInputs(sha, part) <= RootInputs(sha, leaves)
    requires x == Raw([]) || IsLeafInput(part, x) || IsInnerInput(sha, part, x)
    ensures x == Raw([]) || IsLeafInput(leaves, x) || IsInnerInput(sha, leaves, x)
  {
    hide RootInputs;
    if IsLeafInput(part, x) {
      var i :| 0 <= i < |part| && x == LeafInput(part[i]);
      assert leaves[from + i] == part[i];
    } else if IsInnerInput(sha, part, x) {
      var left, right :| x == NodeInput(left, right) && TreeDigest(sha, part, left) && TreeDigest(sha, part, right);
      assert TreeDigest(sha, leaves, left) && TreeDigest(sha, leaves, right);
    }
  }

  /** Whatever indices it claims, an ascent that ends in a digest of a tree started from
      one. */
  lemma {:induction false} AscentStaysInTree(
    sha: Sha, leaves: seq<Digest>, fn: nat, sn: nat, running: Digest, path: seq<HexText>, inputs: set<Preimage>)
    requires fn <= sn && !Collides(sha, inputs)
    requires RootInputs(sha, leaves) <= inputs && AscentInputs(sha, fn, sn, running, path) <= inputs
    requires TreeDigest(sha, leaves, Ascend(sha, fn, sn, running, path).running)
    ensures TreeDigest(sha, leaves, running)
    decreases sn
  {
    hide RootInputs, MerkleRoot, TreeDigest;
    if sn == 0 {
    } else if fn == sn && fn % 2 == 0 {
      AscentStaysInTree(sha, leaves, fn / 2, sn / 2, running, path, inputs);
    } else if path != [] && path[0].Hex? {
      var sibling, odd := path[0].digest, fn % 2 == 1;
      var input := if odd then NodeInput(sibling, running) else NodeInput(running, sibling);
      AscentStaysInTree(sha, leaves, fn / 2, sn / 2, sha(input), path[1..], inputs);
      ChildOfTree(sha, leaves, input, sibling, running, odd, inputs);
    }
  }

  lemma ChildOfTree(
    sha: Sha, leaves: seq<Digest>, input: Preimage, sibling: Digest, running: Digest, odd: bool, inputs: set<Preimage>)
    requires input == if odd then NodeInput(sibling, running) else NodeInput(running, sibling)
    requires RootInputs(sha, leaves) <= inputs && input in inputs && !Collides(sha, inputs)
    requires TreeDigest(sha, leaves, sha(input))
    ensures TreeDigest(sha, leaves, running)
  {
    hide RootInputs, MerkleRoot;
    var x :| x in RootInputs(sha, leaves) && sha(x) == sha(input);
    NoCollision(sha, inputs, x, input);
    InputsOfTree(sha, leaves, x);
    NodeIsNoLeaf(leaves, input, sibling, running, odd);
    var left, right :| x == NodeInput(left, right) && TreeDigest(sha, leaves, left) && TreeDigest(sha, leaves, right);
    SameChildren(input, sibling, running, left, right, odd);
  }

  lemma NodeIsNoLeaf(leaves: seq<Digest>, input: Preimage, sibling: Digest, running: Digest, odd: bool)
    requires input == if odd then NodeInput(sibling, running) else NodeInput(running, sibling)
    ensures input != Raw([]) && !IsLeafInput(leaves, input)
  {
    assert input.bytes[0] == NODE_PREFIX;
    forall i | 0 <= i < |leaves| ensures input != LeafInput(leaves[i]) {
      assert LeafInput(leaves[i]).bytes[0] == LEAF_PREFIX;
    }
  }

  /** An accepted proof against the root of a list names one of its leaves, even if the
      index and size that it claims are not those of the list. */
  lemma InclusionFindsLeaf(
    sha: Sha, leaves: seq<Digest>, leaf: Digest, index: int, size: int, path: seq<HexText>, inputs: set<Preimage>)
    returns (position: nat)
    requires InclusionVerdict(sha, Hex(leaf), index, size, path, Hex(MerkleRoot(sha, leaves))).valid
    requires RootInputs(sha, leaves) + VerificationInputs(sha, Hex(leaf), index, size, path) <= inputs
    requires !Collides(sha, inputs)
    ensures position < |leaves| && leaves[position] == leaf
  {
    hide RootInputs, MerkleRoot, Ascend, AscentInputs, IsInnerInput;
    assert TreeDigest(sha, leaves, MerkleRoot(sha, leaves)) by {
      assert RootInput(sha, leaves) in RootInputs(sha, leaves);
    }
    AscentStaysInTree(sha, leaves, index, size - 1, HashLeaf(sha, leaf), path, inputs);
    var x :| x in RootInputs(sha, leaves) && sha(x) == HashLeaf(sha, leaf);
    NoCollision(sha, inputs, x, LeafInput(leaf));
    InputsOfTree(sha, leaves, x);
    LeafIsNoNode(sha, leaves, leaf);
    position :| 0 <= position < |leaves| && x == LeafInput(leaves[position]);
    LeafInputInjective(leaf, leaves[position]);
  }

  lemma LeafIsNoNode(sha: Sha, leaves: seq<Digest>, leaf: Digest)
    ensures LeafInput(leaf) != Raw([]) && !IsInnerInput(sha, leaves, LeafInput(leaf))
  {
    hide TreeDigest;
    assert LeafInput(leaf).bytes[0] == LEAF_PREFIX;
    forall left, right ensures LeafInput(leaf) != NodeInput(left, right) {
      assert NodeInput(left, right).bytes[0] == NODE_PREFIX;
    }
  }

  /** The claimed index is not protected: the third of three leaves passes as the second of
      two. */
  lemma WrongIndexAccepted(sha: Sha, a: Digest, b: Digest, c: Digest)
    ensures InclusionVerdict(sha, Hex(c), 1, 2, [Hex(MerkleRoot(sha, [a, b]))], Hex(MerkleRoot(sha, [a, b, c]))).valid
  {
    assert [a, b, c][..2] == [a, b] && [a, b, c][2..] == [c];
    SplitPointHalves(3);
    assert SplitPoint(2) == 1;
    assert MerkleRoot(sha, [c]) == HashLeaf(sha, c);
  }
}
