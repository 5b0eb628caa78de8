/** RFC 9162 Merkle trees as apps/core/merkle.py builds them: the tree hash and
    the top-down construction of inclusion paths and consistency proofs. */
module MerkleTree {
  import opened Arithmetic
  import opened Hashing
  import opened Wrappers

  const LEAF_PREFIX: byte := 0
  const NODE_PREFIX: byte := 1

  function LeafInput(leaf: Digest): Preimage {
    Raw([LEAF_PREFIX] + leaf)
  }

  function NodeInput(left: Digest, right: Digest): Preimage {
    Raw([NODE_PREFIX] + left + right)
  }

  function EmptyRoot(sha: Sha): Digest {
    sha(Raw([]))
  }

  function HashLeaf(sha: Sha, leaf: Digest): Digest {
    sha(LeafInput(leaf))
  }

  function HashChildren(sha: Sha, left: Digest, right: Digest): Digest {
    sha(NodeInput(left, right))
  }

  /** Number of binary digits, as Python's `int.bit_length`. */
  function BitLength(n: nat): nat {
    if n == 0 then 0 else 1 + BitLength(n / 2)
  }

  /** The largest power of two strictly below `n`. */
  function SplitPoint(n: nat): (k: nat)
    requires n >= 2
    ensures 1 <= k < n <= 2 * k
  {
    BitLengthBounds(n - 1);
    Pow2(BitLength(n - 1) - 1)
  }

  lemma {:induction false} BitLengthBounds(n: nat)
    requires n >= 1
    ensures BitLength(n) >= 1
    ensures Pow2(BitLength(n) - 1) <= n < 2 * Pow2(BitLength(n) - 1)
  {
    if n > 1 {
      var half := n / 2;
      BitLengthBounds(half);
      assert BitLength(n) == 1 + BitLength(half);
      assert Pow2(BitLength(half)) == 2 * Pow2(BitLength(half) - 1);
    }
  }

  ghost predicate IsPowerOfTwo(k: nat) {
    exists e: nat :: k == Pow2(e)
  }

  lemma {:induction false} PowersGrow(d: nat, e: nat)
    requires d < e
    ensures 2 * Pow2(d) <= Pow2(e)
  {
    if d < e - 1 {
      PowersGrow(d, e - 1);
    }
  }

  /** The split point is what its name says: the one power of two that is below `n` and
      whose double is not. */
  lemma SplitPointExact(n: nat, k: nat)
    requires n >= 2
    ensures k == SplitPoint(n) <==> IsPowerOfTwo(k) && k < n <= 2 * k
  {
    var d := BitLength(n - 1) - 1;
    BitLengthBounds(n - 1);
    assert SplitPoint(n) == Pow2(d);
    if IsPowerOfTwo(k) && k < n <= 2 * k {
      var e: nat :| k == Pow2(e);
      if d < e {
        PowersGrow(d, e);
      } else if e < d {
        PowersGrow(e, d);
      }
    }
  }

  lemma SplitPointHalves(n: nat)
    requires n >= 3
    ensures SplitPoint(n) == 2 * SplitPoint((n + 1) / 2)
  {
    assert (n + 1) / 2 - 1 == (n - 1) / 2;
  }

  function MerkleRoot(sha: Sha, leaves: seq<Digest>): Digest
    decreases |leaves|
  {
    if |leaves| == 0 then
      EmptyRoot(sha)
    else if |leaves| == 1 then
      HashLeaf(sha, leaves[0])
    else
      var k := SplitPoint(|leaves|);
      HashChildren(sha, MerkleRoot(sha, leaves[..k]), MerkleRoot(sha, leaves[k..]))
  }

  /** Sibling digests from the leaf up to the root. */
  function InclusionPath(sha: Sha, leaves: seq<Digest>, index: nat): seq<Digest>
    requires index < |leaves|
    decreases |leaves|
  {
    if |leaves| == 1 then
      []
    else
      var k := SplitPoint(|leaves|);
      if index < k then
        InclusionPath(sha, leaves[..k], index) + [MerkleRoot(sha, leaves[k..])]
      else
        InclusionPath(sha, leaves[k..], index - k) + [MerkleRoot(sha, leaves[..k])]
  }

  datatype ProofError = IndexOutOfBounds | InvalidConsistencyBounds

  function BuildInclusionProof(sha: Sha, leaves: seq<Digest>, index: int): Result<seq<Digest>, ProofError> {
    if |leaves| == 0 || index < 0 || index >= |leaves| then
      Err(IndexOutOfBounds)
    else
      Ok(InclusionPath(sha, leaves, index))
  }

  /** The SUBPROOF recursion of section 2.1.4.1 of RFC 9162. */
  function Subproof(sha: Sha, leaves: seq<Digest>, first: nat, fromOldRoot: bool): seq<Digest>
    requires 1 <= first <= |leaves|
    decreases |leaves|
  {
    if first == |leaves| then
      if fromOldRoot then [] else [MerkleRoot(sha, leaves)]
    else
      var k := SplitPoint(|leaves|);
      if first <= k then
        Subproof(sha, leaves[..k], first, fromOldRoot) + [MerkleRoot(sha, leaves[k..])]
      else
        Subproof(sha, leaves[k..], first - k, false) + [MerkleRoot(sha, leaves[..k])]
  }

  function BuildConsistencyProof(sha: Sha, leaves: seq<Digest>, first: int): Result<seq<Digest>, ProofError> {
    if first < 0 || first > |leaves| then
      Err(InvalidConsistencyBounds)
    else if first == 0 || first == |leaves| then
      Ok([])
    else
      Ok(Subproof(sha, leaves, first, true))
  }

  /** Every input hashed while computing `MerkleRoot(sha, leaves)`. */
  function RootInputs(sha: Sha, leaves: seq<Digest>): set<Preimage>
    decreases |leaves|
  {
    if |leaves| == 0 then
      {Raw([])}
    else if |leaves| == 1 then
      {LeafInput(leaves[0])}
    else
      var k := SplitPoint(|leaves|);
      {NodeInput(MerkleRoot(sha, leaves[..k]), MerkleRoot(sha, leaves[k..]))}
      + RootInputs(sha, leaves[..k]) + RootInputs(sha, leaves[k..])
  }

  // ---------- encodings of hash inputs ----------

  lemma LeafInputInjective(a: Digest, b: Digest)
    requires LeafInput(a) == LeafInput(b)
    ensures a == b
  {
    assert LeafInput(a).bytes[1..] == a && LeafInput(b).bytes[1..] == b;
  }

  lemma NodeInputInjective(a: Digest, b: Digest, c: Digest, d: Digest)
    requires NodeInput(a, b) == NodeInput(c, d)
    ensures a == c && b == d
  {
    var x, y := NodeInput(a, b).bytes, NodeInput(c, d).bytes;
    assert x[1..33] == a && x[33..] == b;
    assert y[1..33] == c && y[33..] == d;
  }

  // ---------- root binding ----------

  /** Equal roots mean equal leaf lists, whatever their lengths, unless the two
      root computations hash two different inputs to one digest. */
  lemma {:induction false} RootBinding(sha: Sha, d: seq<Digest>, e: seq<Digest>)
    requires MerkleRoot(sha, d) == MerkleRoot(sha, e)
    ensures d == e || Collides(sha, RootInputs(sha, d) + RootInputs(sha, e))
  {
    RootBindingWithin(sha, d, e, RootInputs(sha, d) + RootInputs(sha, e));
  }

  lemma {:induction false} RootBindingWithin(sha: Sha, d: seq<Digest>, e: seq<Digest>, inputs: set<Preimage>)
    requires MerkleRoot(sha, d) == MerkleRoot(sha, e)
    requires RootInputs(sha, d) <= inputs && RootInputs(sha, e) <= inputs
    ensures d == e || Collides(sha, inputs)
    decreases |d|
  {
    hide MerkleRoot, RootInputs, RootInput;
    if !Collides(sha, inputs) {
      SameTopInput(sha, d, e, inputs);
      if |d| == 1 {
        TopOfLeaf(sha, d);
        TopOfLeaf(sha, e);
        LeafInputInjective(d[0], e[0]);
      } else if |d| >= 2 {
        var dLow, dHigh := TopOfNode(sha, d);
        var eLow, eHigh := TopOfNode(sha, e);
        NodeInputInjective(
          MerkleRoot(sha, dLow), MerkleRoot(sha, dHigh), MerkleRoot(sha, eLow), MerkleRoot(sha, eHigh));
        RootBindingWithin(sha, dLow, eLow, inputs);
        RootBindingWithin(sha, dHigh, eHigh, inputs);
      }
    }
  }

  lemma TopOfLeaf(sha: Sha, leaves: seq<Digest>)
    requires |leaves| == 1
    ensures RootInput(sha, leaves) == LeafInput(leaves[0])
  {
  }

  lemma TopOfNode(sha: Sha, leaves: seq<Digest>) returns (low: seq<Digest>, high: seq<Digest>)
    requires |leaves| >= 2
    ensures leaves == low + high && 1 <= |low| < |leaves|
    ensures RootInput(sha, leaves) == NodeInput(MerkleRoot(sha, low), MerkleRoot(sha, high))
    ensures RootInputs(sha, low) <= RootInputs(sha, leaves)
    ensures RootInputs(sha, high) <= RootInputs(sha, leaves)
  {
    var k := SplitPoint(|leaves|);
    low, high := leaves[..k], leaves[k..];
  }

  /** Without a collision, equal roots come from one input of one kind. */
  lemma SameTopInput(sha: Sha, d: seq<Digest>, e: seq<Digest>, inputs: set<Preimage>)
    requires MerkleRoot(sha, d) == MerkleRoot(sha, e) && !Collides(sha, inputs)
    requires RootInputs(sha, d) <= inputs && RootInputs(sha, e) <= inputs
    ensures RootInput(sha, d) == RootInput(sha, e)
    ensures |d| == |e| || (|d| >= 2 && |e| >= 2)
  {
    assert RootInput(sha, d) in inputs && RootInput(sha, e) in inputs;
  }

  /** The last input hashed by `MerkleRoot(sha, leaves)`; its prefix tells
      whether the tree is empty, a leaf or an interior node. */
  function RootInput(sha: Sha, leaves: seq<Digest>): (x: Preimage)
    ensures sha(x) == MerkleRoot(sha, leaves) && x in RootInputs(sha, leaves)
    ensures x.Raw? && (x.bytes == [] <==> |leaves| == 0)
    ensures |leaves| == 1 ==> x.bytes[0] == LEAF_PREFIX
    ensures |leaves| >= 2 ==> x.bytes[0] == NODE_PREFIX
  {
    if |leaves| == 0 then
      Raw([])
    else if |leaves| == 1 then
      LeafInput(leaves[0])
    else
      var k := SplitPoint(|leaves|);
      NodeInput(MerkleRoot(sha, leaves[..k]), MerkleRoot(sha, leaves[k..]))
  }
}
