/** `verify_merkle_consistency_proof` of apps/core/merkle.py: the check that one
    tree extends another, following section 2.1.4.2 of RFC 9162. */
module MerkleConsistency {
  import opened Arithmetic
  import opened Hashing
  import opened MerkleTree
  import opened MerkleLevels
  import opened MerkleInclusion
  import opened Wrappers

  datatype Fault =
    | InvalidBounds
    | RootMismatch
    | PathEmpty
    | PathLengthMismatch
    | MalformedDigest
    | FirstRootMismatch
    | SecondRootMismatch

  datatype Roots = Roots(first: Digest, second: Digest)

  datatype Report = Report(valid: bool, faults: seq<Fault>, recomputed: Option<Roots>)

  datatype Stop = AtRoot | TooShort | TooLong | Malformed

  /** Two ascents at once: `first` in the old tree, `second` in the new one. */
  datatype Climb = Climb(first: Digest, second: Digest, stop: Stop)

  /** One tree level at a time.  The node at `fn` is the last one of its level in
      the old tree, so only siblings on its left belong to both trees. */
  function AscendBoth(sha: Sha, fn: nat, sn: nat, fr: Digest, sr: Digest, path: seq<HexText>): Climb
    requires fn <= sn
    decreases sn
  {
    if sn == 0 then
      Climb(fr, sr, if path == [] then AtRoot else TooLong)
    else if fn == sn && fn % 2 == 0 then
      AscendBoth(sha, fn / 2, sn / 2, fr, sr, path)
    else if path == [] then
      Climb(fr, sr, TooShort)
    else if path[0].Other? then
      Climb(fr, sr, Malformed)
    else
      var sibling := path[0].digest;
      if fn % 2 == 1 then
        AscendBoth(sha, fn / 2, sn / 2, HashChildren(sha, sibling, fr), HashChildren(sha, sibling, sr), path[1..])
      else
        AscendBoth(sha, fn / 2, sn / 2, fr, HashChildren(sha, sr, sibling), path[1..])
  }

  /** Bitwise conjunction. */
  function And(a: nat, b: nat): nat {
    if a == 0 || b == 0 then 0 else 2 * And(a / 2, b / 2) + if a % 2 == 1 && b % 2 == 1 then 1 else 0
  }

  /** Levels of which the old tree only has complete pairs are skipped. */
  function SkipPairs(fn: nat, sn: nat): (indices: (nat, nat))
    requires fn <= sn
    ensures indices.0 <= indices.1
  {
    if fn % 2 == 1 then SkipPairs(fn / 2, sn / 2) else (fn, sn)
  }

  /** The old root doubles as the first path node when the old tree is perfect. */
  function PathNodes(first: nat, firstRoot: HexText, path: seq<HexText>): seq<HexText>
    requires first >= 1
  {
    if And(first, first - 1) == 0 then [firstRoot] + path else path
  }

  function ClimbFrom(sha: Sha, first: nat, second: nat, seed: Digest, rest: seq<HexText>): Climb
    requires 1 <= first < second
  {
    var (fn, sn) := SkipPairs(first - 1, second - 1);
    AscendBoth(sha, fn, sn, seed, seed, rest)
  }

  function ClimbReport(climb: Climb, firstRoot: HexText, secondRoot: HexText): Report {
    if climb.stop == TooLong then
      Report(false, [PathLengthMismatch], None)
    else if climb.stop == Malformed then
      Report(false, [MalformedDigest], None)
    else
      var faults := (if climb.stop == TooShort then [PathLengthMismatch] else [])
                    + (if firstRoot == Hex(climb.first) then [] else [FirstRootMismatch])
                    + (if secondRoot == Hex(climb.second) then [] else [SecondRootMismatch]);
      Report(faults == [], faults, Some(Roots(climb.first, climb.second)))
  }

  function ConsistencyReport(
    sha: Sha, first: int, second: int, firstRoot: HexText, secondRoot: HexText, path: seq<HexText>): Report
  {
    if first < 0 || second < 0 || first > second then
      Report(false, [InvalidBounds], None)
    else if first == 0 then
      var ok := firstRoot == Hex(EmptyRoot(sha)) && path == [];
      Report(ok, if ok then [] else [RootMismatch], None)
    else if first == second then
      var ok := firstRoot == secondRoot && path == [];
      Report(ok, if ok then [] else [RootMismatch], None)
    else if path == [] then
      Report(false, [PathEmpty], None)
    else
      var pathNodes := PathNodes(first, firstRoot, path);
      if pathNodes[0].Other? then
        Report(false, [MalformedDigest], None)
      else
        ClimbReport(ClimbFrom(sha, first, second, pathNodes[0].digest, pathNodes[1..]), firstRoot, secondRoot)
  }

  method VerifyConsistencyProof(
    sha: Sha, first: int, second: int, firstRoot: HexText, secondRoot: HexText, path: seq<HexText>)
    returns (report: Report)
    ensures report == ConsistencyReport(sha, first, second, firstRoot, secondRoot, path)
  {
    hide And, HashChildren, AscendBoth, SkipPairs, ClimbFrom, ClimbReport;
    if first < 0 || second < 0 || first > second {
      return Report(false, [InvalidBounds], None);
    }
    if first == 0 {
      var ok := firstRoot == Hex(EmptyRoot(sha)) && path == [];
      return Report(ok, if ok then [] else [RootMismatch], None);
    }
    if first == second {
      var ok := firstRoot == secondRoot && path == [];
      return Report(ok, if ok then [] else [RootMismatch], None);
    }
    if path == [] {
      return Report(false, [PathEmpty], None);
    }
    var pathNodes := if And(first, first - 1) == 0 then [firstRoot] + path else path;
    var fn, sn := first - 1, second - 1;
    while fn % 2 == 1
      invariant 0 <= fn <= sn
      invariant SkipPairs(fn, sn) == SkipPairs(first - 1, second - 1)
      decreases fn
    {
      SkipMore(fn, sn);
      fn, sn := fn / 2, sn / 2;
    }
    SkipMore(fn, sn);
    if pathNodes[0].Other? {
      return Report(false, [MalformedDigest], None);
    }
    var fr, sr := pathNodes[0].digest, pathNodes[0].digest;
    ghost var climb := ClimbFrom(sha, first, second, fr, pathNodes[1..]);
    ClimbStarts(sha, first, second, fr, pathNodes[1..]);
    var k := 1;
    while k < |pathNodes|
      invariant 1 <= k <= |pathNodes| && 0 <= fn <= sn
      invariant AscendBoth(sha, fn, sn, fr, sr, pathNodes[k..]) == climb
    {
      ghost var rest := pathNodes[k..];
      StopHere(sha, fn, sn, fr, sr, rest);
      Reported(climb, firstRoot, secondRoot);
      if sn == 0 {
        return Report(false, [PathLengthMismatch], None);
      }
      if pathNodes[k].Other? {
        return Report(false, [MalformedDigest], None);
      }
      LevelUp(sha, fn, sn, fr, sr, rest);
      var sibling := pathNodes[k].digest;
      if fn % 2 == 1 || fn == sn {
        ghost var fr0, sr0 := fr, sr;
        fr, sr := HashChildren(sha, sibling, fr), HashChildren(sha, sibling, sr);
        while fn % 2 == 0 && fn != 0
          invariant 0 < fn <= sn && (fn % 2 == 1 || fn == sn)
          invariant AscendBoth(sha, fn, sn, fr0, sr0, rest) == climb
        {
          LevelUp(sha, fn, sn, fr0, sr0, rest);
          fn, sn := fn / 2, sn / 2;
        }
        LevelUp(sha, fn, sn, fr0, sr0, rest);
      } else {
        sr := HashChildren(sha, sr, sibling);
      }
      fn, sn := fn / 2, sn / 2;
      k := k + 1;
    }
    StopHere(sha, fn, sn, fr, sr, pathNodes[k..]);
    Reported(climb, firstRoot, secondRoot);
    var faults: seq<Fault> := [];
    if sn != 0 {
      faults := [PathLengthMismatch];
    }
    if firstRoot != Hex(fr) {
      faults := faults + [FirstRootMismatch];
    }
    if secondRoot != Hex(sr) {
      faults := faults + [SecondRootMismatch];
    }
    report := Report(faults == [], faults, Some(Roots(fr, sr)));
  }

  lemma SkipMore(fn: nat, sn: nat)
    requires fn <= sn
    ensures SkipPairs(fn, sn) == if fn % 2 == 1 then SkipPairs(fn / 2, sn / 2) else (fn, sn)
  {
  }

  lemma ClimbStarts(sha: Sha, first: nat, second: nat, seed: Digest, rest: seq<HexText>)
    requires 1 <= first < second
    ensures var (fn, sn) := SkipPairs(first - 1, second - 1);
      ClimbFrom(sha, first, second, seed, rest) == AscendBoth(sha, fn, sn, seed, seed, rest)
  {
    hide SkipPairs, AscendBoth;
  }

  /** What each end of a climb is reported as. */
  lemma Reported(climb: Climb, firstRoot: HexText, secondRoot: HexText)
    ensures var report := ClimbReport(climb, firstRoot, secondRoot);
      match climb.stop
      case TooLong => report == Report(false, [PathLengthMismatch], None)
      case Malformed => report == Report(false, [MalformedDigest], None)
      case _ =>
        var faults := (if climb.stop == TooShort then [PathLengthMismatch] else [])
                      + (if firstRoot == Hex(climb.first) then [] else [FirstRootMismatch])
                      + (if secondRoot == Hex(climb.second) then [] else [SecondRootMismatch]);
        report == Report(faults == [], faults, Some(Roots(climb.first, climb.second)))
  {
  }

  /** One level of a climb whose next sibling is a digest. */
  lemma LevelUp(sha: Sha, fn: nat, sn: nat, fr: Digest, sr: Digest, path: seq<HexText>)
    requires fn <= sn && sn != 0 && path != [] && path[0].Hex?
    ensures var sibling := path[0].digest;
      AscendBoth(sha, fn, sn, fr, sr, path) ==
        if fn % 2 == 1 then
          AscendBoth(sha, fn / 2, sn / 2, HashChildren(sha, sibling, fr), HashChildren(sha, sibling, sr), path[1..])
        else if fn == sn then
          AscendBoth(sha, fn / 2, sn / 2, fr, sr, path)
        else
          AscendBoth(sha, fn / 2, sn / 2, fr, HashChildren(sha, sr, sibling), path[1..])
  {
    hide HashChildren;
  }

  /** Levels without sibling use nothing of the path. */
  lemma {:induction false} StopHere(sha: Sha, fn: nat, sn: nat, fr: Digest, sr: Digest, path: seq<HexText>)
    requires fn <= sn
    ensures sn == 0 ==> AscendBoth(sha, fn, sn, fr, sr, path) == Climb(fr, sr, if path == [] then AtRoot else TooLong)
    ensures sn != 0 && path == [] ==> AscendBoth(sha, fn, sn, fr, sr, path) == Climb(fr, sr, TooShort)
    ensures sn != 0 && path != [] && path[0].Other? ==>
              AscendBoth(sha, fn, sn, fr, sr, path) == Climb(fr, sr, Malformed)
    decreases sn
  {
    if sn != 0 && fn == sn && fn % 2 == 0 {
      StopHere(sha, fn / 2, sn / 2, fr, sr, path);
    }
  }

  // ---------- the climb from a node that both trees have ----------

  /** Replacing the last node of a prefix commutes with pairing up. */
  lemma PrefixOfPairs(sha: Sha, nodes: seq<Digest>, j: nat, odd: bool, last: Digest)
    requires NodeIndex(j, odd) < |nodes|
    ensures PairUp(sha, nodes[..NodeIndex(j, odd)] + [last])
         == PairUp(sha, nodes)[..j] + [if odd then HashChildren(sha, nodes[2 * j], last) else last]
  {
    var oldLevel := nodes[..NodeIndex(j, odd)] + [last];
    forall i | 0 <= i < j ensures Parent(sha, oldLevel, i) == Parent(sha, nodes, i) {
      assert oldLevel[2 * i] == nodes[2 * i] && oldLevel[2 * i + 1] == nodes[2 * i + 1];
    }
    assert odd ==> oldLevel[2 * j] == nodes[2 * j];
    assert oldLevel[NodeIndex(j, odd)] == last;
  }

  /** Along the path of a node the old side rebuilds the root of the prefix that
      ends there and the new side the root of the whole tree. */
  lemma {:induction false} ClimbAlongPath(sha: Sha, nodes: seq<Digest>, index: nat, last: Digest)
    requires index < |nodes|
    ensures AscendBoth(sha, index, |nodes| - 1, last, nodes[index], Texts(TreePath(sha, nodes, index)))
         == Climb(TreeRoot(sha, nodes[..index] + [last]), TreeRoot(sha, nodes), AtRoot)
    decreases |nodes|
  {
    hide TreePath, TreeRoot;
    var oldLevel := nodes[..index] + [last];
    if |nodes| == 1 {
      LonePath(sha, nodes);
      LoneRoot(sha, nodes);
      LoneRoot(sha, oldLevel);
    } else {
      var up, j, odd := PairUp(sha, nodes), index / 2, index % 2 == 1;
      PathOfPairs(sha, nodes, j, odd);
      RootOfPairs(sha, nodes);
      RootOfPairs(sha, oldLevel);
      PrefixOfPairs(sha, nodes, j, odd, last);
      ClimbAlongPath(sha, up, j, if odd then HashChildren(sha, nodes[2 * j], last) else last);
      var sibling, rest := Sibling(nodes, j, odd), TreePath(sha, up, j);
      assert Texts(sibling + rest)[|sibling|..] == Texts(rest);
      assert (|nodes| - 1) / 2 == |up| - 1;
    }
  }

  /** The new side is the ascent of an inclusion proof. */
  lemma {:induction false} SecondSideAscends(sha: Sha, fn: nat, sn: nat, fr: Digest, sr: Digest, path: seq<HexText>)
    requires fn <= sn
    ensures var climb, ascent := AscendBoth(sha, fn, sn, fr, sr, path), Ascend(sha, fn, sn, sr, path);
      climb.second == ascent.running && (climb.stop == AtRoot ==> ascent.complete && !ascent.malformed)
    decreases sn
  {
    if sn == 0 {
    } else if fn == sn && fn % 2 == 0 {
      SecondSideAscends(sha, fn / 2, sn / 2, fr, sr, path);
    } else if path != [] && path[0].Hex? {
      var sibling := path[0].digest;
      if fn % 2 == 1 {
        SecondSideAscends(
          sha, fn / 2, sn / 2, HashChildren(sha, sibling, fr), HashChildren(sha, sibling, sr), path[1..]);
      } else {
        SecondSideAscends(sha, fn / 2, sn / 2, fr, HashChildren(sha, sr, sibling), path[1..]);
      }
    }
  }

  // ---------- skipping complete pairs ----------

  lemma {:induction false} AndSelf(n: nat)
    ensures And(n, n) == n
  {
    if n > 0 {
      AndSelf(n / 2);
    }
  }

  lemma AndPredecessor(j: nat)
    ensures And(2 * j + 1, 2 * j) == 0 <==> j == 0
    ensures j >= 1 ==> (And(2 * j, 2 * j - 1) == 0 <==> And(j, j - 1) == 0)
  {
    assert (2 * j + 1) / 2 == j && (2 * j) / 2 == j && (2 * j) % 2 == 0;
    AndSelf(j);
    if j >= 1 {
      assert (2 * j - 1) / 2 == j - 1;
    }
  }

  /** The bit test finds the sizes that are powers of two. */
  lemma {:induction false} AndTestsPowerOfTwo(n: nat)
    requires n >= 1
    ensures And(n, n - 1) == 0 <==> n == Pow2(BitLength(n) - 1)
  {
    hide And, Pow2, BitLength;
    var j := n / 2;
    AndPredecessor(j);
    HighBit(j);
    if n == 2 * j {
      AndTestsPowerOfTwo(j);
    } else {
      assert n == 2 * j + 1;
    }
  }

  lemma HighBit(j: nat)
    ensures Pow2(BitLength(2 * j + 1) - 1) == if j == 0 then 1 else 2 * Pow2(BitLength(j) - 1)
    ensures j >= 1 ==> Pow2(BitLength(2 * j) - 1) == 2 * Pow2(BitLength(j) - 1)
  {
    assert (2 * j) / 2 == j && (2 * j + 1) / 2 == j;
  }

  lemma SkipOnePair(first: nat, second: nat)
    requires 1 <= first && 2 * first <= second
    ensures SkipPairs(2 * first - 1, second - 1) == SkipPairs(first - 1, (second + 1) / 2 - 1)
  {
    assert (2 * first - 1) / 2 == first - 1 && (second - 1) / 2 == (second + 1) / 2 - 1;
  }

  /** What an accepted check fixes, in terms of the level of leaf hashes: the
      path is the one that SUBPROOF builds and starts at the right node. */
  lemma {:induction false} SeedOfSubproof(sha: Sha, nodes: seq<Digest>, first: nat)
    requires 1 <= first < |nodes|
    ensures var pathNodes := PathNodes(first, Hex(TreeRoot(sha, nodes[..first])),
                                       Texts(TreeSubproof(sha, nodes, first, true)));
      && pathNodes != [] && pathNodes[0].Hex?
      && ClimbFrom(sha, first, |nodes|, pathNodes[0].digest, pathNodes[1..])
         == Climb(TreeRoot(sha, nodes[..first]), TreeRoot(sha, nodes), AtRoot)
    decreases |nodes|
  {
    hide TreePath, TreeRoot, TreeSubproof, And, AscendBoth;
    var j := first / 2;
    AndPredecessor(j);
    if first == 2 * j {
      var up := PairUp(sha, nodes);
      SubproofOfPairs(sha, nodes, j, true);
      PairUpSplits(sha, nodes, j);
      RootOfPairs(sha, nodes);
      RootOfPairs(sha, nodes[..first]);
      SkipOnePair(j, |nodes|);
      SeedOfSubproof(sha, up, j);
    } else {
      assert first == 2 * j + 1;
      var path := TreePath(sha, nodes, 2 * j);
      OddSubproofFromOldRoot(sha, nodes, j);
      ClimbAlongPath(sha, nodes, 2 * j, nodes[2 * j]);
      assert nodes[..2 * j] + [nodes[2 * j]] == nodes[..first];
      if j == 0 {
        LoneRoot(sha, nodes[..1]);
        assert [] + path == path;
        assert ([Hex(nodes[0])] + Texts(path))[1..] == Texts(path);
      } else {
        assert Texts([nodes[2 * j]] + path)[1..] == Texts(path);
      }
    }
  }

  // ---------- completeness ----------

  /** A proof is built exactly for the prefix sizes of the list, and it is always
      accepted against the roots of the prefix and of the whole list. */
  lemma ConsistencyComplete(sha: Sha, leaves: seq<Digest>, first: int)
    ensures BuildConsistencyProof(sha, leaves, first).Ok? <==> 0 <= first <= |leaves|
    ensures 0 <= first <= |leaves| ==>
              ConsistencyReport(sha, first, |leaves|,
                                Hex(MerkleRoot(sha, leaves[..first])), Hex(MerkleRoot(sha, leaves)),
                                Texts(BuildConsistencyProof(sha, leaves, first).value)).valid
  {
    hide MerkleRoot, Subproof, ClimbFrom, And;
    if 0 < first < |leaves| {
      BuiltProofClimbs(sha, leaves, first);
    } else if first == 0 {
      EmptyTree(sha);
      assert leaves[..first] == [];
    } else if first == |leaves| {
      assert leaves[..first] == leaves;
    }
  }

  lemma BuiltProofClimbs(sha: Sha, leaves: seq<Digest>, first: nat)
    requires 1 <= first < |leaves|
    ensures var oldRoot, path := MerkleRoot(sha, leaves[..first]), Texts(Subproof(sha, leaves, first, true));
      var pathNodes := PathNodes(first, Hex(oldRoot), path);
      && path != [] && pathNodes[0].Hex?
      && ClimbFrom(sha, first, |leaves|, pathNodes[0].digest, pathNodes[1..])
         == Climb(oldRoot, MerkleRoot(sha, leaves), AtRoot)
  {
    hide MerkleRoot, Subproof, TreeRoot, TreeSubproof, ClimbFrom, And;
    var nodes := LeafHashes(sha, leaves);
    LeafHashesSplit(sha, leaves, first);
    RootOverLeafHashes(sha, leaves);
    RootOverLeafHashes(sha, leaves[..first]);
    SubproofOverLeafHashes(sha, leaves, first, true);
    SeedOfSubproof(sha, nodes, first);
    NonemptySubproof(sha, nodes, first);
  }

  lemma EmptyTree(sha: Sha)
    ensures MerkleRoot(sha, []) == EmptyRoot(sha)
  {
  }

  lemma NonemptySubproof(sha: Sha, nodes: seq<Digest>, first: nat)
    requires 1 <= first < |nodes|
    ensures TreeSubproof(sha, nodes, first, true) != []
  {
  }

  // ---------- what each fault means ----------

  /** How a climb ends depends on the path's length and well-formedness alone. */
  lemma {:induction false} ClimbOutcome(sha: Sha, fn: nat, sn: nat, fr: Digest, sr: Digest, path: seq<HexText>)
    requires fn <= sn
    ensures AscendBoth(sha, fn, sn, fr, sr, path).stop ==
              if MalformedWithin(path, SiblingCount(fn, sn)) then Malformed
              else if |path| < SiblingCount(fn, sn) then TooShort
              else if |path| > SiblingCount(fn, sn) then TooLong
              else AtRoot
    decreases sn
  {
    if sn == 0 {
    } else if fn == sn && fn % 2 == 0 {
      ClimbOutcome(sha, fn / 2, sn / 2, fr, sr, path);
    } else if path != [] {
      MalformedHead(path, SiblingCount(fn, sn));
      if path[0].Hex? {
        var sibling := path[0].digest;
        if fn % 2 == 1 {
          ClimbOutcome(sha, fn / 2, sn / 2, HashChildren(sha, sibling, fr), HashChildren(sha, sibling, sr), path[1..]);
        } else {
          ClimbOutcome(sha, fn / 2, sn / 2, fr, HashChildren(sha, sr, sibling), path[1..]);
        }
      }
    }
  }

  lemma MalformedHead(path: seq<HexText>, count: nat)
    requires path != [] && count > 0
    ensures MalformedWithin(path, count) <==> path[0].Other? || MalformedWithin(path[1..], count - 1)
  {
    if MalformedWithin(path, count) {
      var k :| 0 <= k < |path| && k < count && path[k].Other?;
      assert k > 0 ==> path[1..][k - 1].Other?;
    }
    if MalformedWithin(path[1..], count - 1) {
      var k :| 0 <= k < |path[1..]| && k < count - 1 && path[1..][k].Other?;
      assert path[k + 1].Other?;
    }
  }

  /** The faults for sizes out of order, an empty old tree, equal sizes and an empty path. */
  lemma EdgeFaults(sha: Sha, first: int, second: int, firstRoot: HexText, secondRoot: HexText, path: seq<HexText>)
    ensures var report := ConsistencyReport(sha, first, second, firstRoot, secondRoot, path);
      && (report.valid <==> report.faults == [])
      && (report.faults == [InvalidBounds] <==> !(0 <= first <= second))
      && (report.faults == [RootMismatch] <==>
            || (0 == first <= second && !(firstRoot == Hex(MerkleRoot(sha, [])) && path == []))
            || (0 < first == second && !(firstRoot == secondRoot && path == [])))
      && (report.faults == [PathEmpty] <==> 0 < first < second && path == [])
      && (!(0 < first < second) || path == [] ==> |report.faults| <= 1 && report.recomputed == None)
  {
    hide ClimbFrom, And, ClimbReport;
    EmptyTree(sha);
    if 0 < first < second && path != [] {
      var nodes := PathNodes(first, firstRoot, path);
      if nodes[0].Hex? {
        ClimbFaults(ClimbFrom(sha, first, second, nodes[0].digest, nodes[1..]), firstRoot, secondRoot);
      }
    }
  }

  lemma ClimbFaults(climb: Climb, firstRoot: HexText, secondRoot: HexText)
    ensures var report := ClimbReport(climb, firstRoot, secondRoot);
      && (report.valid <==> report.faults == [])
      && InvalidBounds !in report.faults && RootMismatch !in report.faults && PathEmpty !in report.faults
  {
  }

  /** What each fault of a check between proper sizes means: a malformed digest among the
      nodes that the built proof would have, a path of another length than the built one,
      or a root other than the recomputed one. */
  lemma ConsistencyFaults(
    sha: Sha, leaves: seq<Digest>, first: nat, firstRoot: HexText, secondRoot: HexText, path: seq<HexText>)
    requires 1 <= first < |leaves| && path != []
    ensures var report := ConsistencyReport(sha, first, |leaves|, firstRoot, secondRoot, path);
      var built := |Subproof(sha, leaves, first, true)|;
      var perfect := first == Pow2(BitLength(first) - 1);
      var malformed := (perfect && firstRoot.Other?) || MalformedWithin(path, built);
      && (MalformedDigest in report.faults <==> malformed)
      && (PathLengthMismatch in report.faults <==> !malformed && |path| != built)
      && (report.recomputed.Some? <==> !malformed && |path| <= built)
      && (FirstRootMismatch in report.faults <==>
            report.recomputed.Some? && firstRoot != Hex(report.recomputed.value.first))
      && (SecondRootMismatch in report.faults <==>
            report.recomputed.Some? && secondRoot != Hex(report.recomputed.value.second))
      && forall f :: f in report.faults ==>
           f in {MalformedDigest, PathLengthMismatch, FirstRootMismatch, SecondRootMismatch}
  {
    hide MerkleRoot, Subproof, And, AscendBoth, SkipPairs, SiblingCount, MalformedWithin;
    var nodes := PathNodes(first, firstRoot, path);
    var built := Subproof(sha, leaves, first, true);
    var count := BuiltCount(sha, leaves, first);
    AndTestsPowerOfTwo(first);
    NodesMalformed(first, firstRoot, path, count);
    if nodes[0].Hex? {
      var (fn, sn) := SkipPairs(first - 1, |leaves| - 1);
      ClimbOutcome(sha, fn, sn, nodes[0].digest, nodes[0].digest, nodes[1..]);
    }
  }

  /** The built proof has as many nodes after the seed as the climb has siblings. */
  lemma BuiltCount(sha: Sha, leaves: seq<Digest>, first: nat) returns (count: nat)
    requires 1 <= first < |leaves|
    ensures var (fn, sn) := SkipPairs(first - 1, |leaves| - 1); count == SiblingCount(fn, sn)
    ensures |Subproof(sha, leaves, first, true)| == if And(first, first - 1) == 0 then count else count + 1
  {
    hide MerkleRoot, Subproof, And, AscendBoth, SkipPairs, SiblingCount;
    BuiltProofClimbs(sha, leaves, first);
    var path := Texts(Subproof(sha, leaves, first, true));
    var nodes := PathNodes(first, Hex(MerkleRoot(sha, leaves[..first])), path);
    var (fn, sn) := SkipPairs(first - 1, |leaves| - 1);
    ClimbOutcome(sha, fn, sn, nodes[0].digest, nodes[0].digest, nodes[1..]);
    count := SiblingCount(fn, sn);
  }

  lemma NodesMalformed(first: nat, firstRoot: HexText, path: seq<HexText>, count: nat)
    requires first >= 1 && path != []
    ensures var nodes, perfect := PathNodes(first, firstRoot, path), And(first, first - 1) == 0;
      nodes[0].Other? || MalformedWithin(nodes[1..], count) <==>
        (perfect && firstRoot.Other?) || MalformedWithin(path, if perfect then count else count + 1)
  {
    hide And, MalformedWithin;
    var nodes := PathNodes(first, firstRoot, path);
    if And(first, first - 1) == 0 {
      assert nodes[1..] == path;
    } else {
      MalformedHead(path, count + 1);
    }
  }

  // ---------- soundness ----------

  /** The inputs hashed on the new side of the check. */
  function ConsistencyInputs(
    sha: Sha, first: int, second: int, firstRoot: HexText, path: seq<HexText>): set<Preimage>
  {
    if !(1 <= first < second) then
      {}
    else
      var pathNodes := PathNodes(first, firstRoot, path);
      if pathNodes == [] || pathNodes[0].Other? then
        {}
      else
        ClimbInputs(sha, first, second, pathNodes[0].digest, pathNodes[1..])
  }

  function ClimbInputs(sha: Sha, first: nat, second: nat, seed: Digest, rest: seq<HexText>): set<Preimage>
    requires 1 <= first < second
  {
    var (fn, sn) := SkipPairs(first - 1, second - 1);
    AscentInputs(sha, fn, sn, seed, rest)
  }

  /** The check climbs from its seed to the given roots, hashing only `inputs`. */
  ghost predicate Climbs(
    sha: Sha, nodes: seq<Digest>, first: nat, firstRoot: HexText, path: seq<HexText>, inputs: set<Preimage>)
    requires 1 <= first < |nodes|
  {
    var pathNodes := PathNodes(first, firstRoot, path);
    && pathNodes != [] && pathNodes[0].Hex?
    && TreeInputs(sha, nodes) <= inputs
    && ClimbInputs(sha, first, |nodes|, pathNodes[0].digest, pathNodes[1..]) <= inputs
    && var climb := ClimbFrom(sha, first, |nodes|, pathNodes[0].digest, pathNodes[1..]);
    && climb.stop == AtRoot && climb.second == TreeRoot(sha, nodes) && firstRoot == Hex(climb.first)
  }

  /** A climb that ends in the root of the new tree ran along the built proof. */
  lemma {:induction false} ClimbBinds(
    sha: Sha, nodes: seq<Digest>, first: nat, firstRoot: HexText, path: seq<HexText>, inputs: set<Preimage>)
    requires 1 <= first < |nodes| && !Collides(sha, inputs)
    requires Climbs(sha, nodes, first, firstRoot, path, inputs)
    ensures firstRoot == Hex(TreeRoot(sha, nodes[..first]))
    ensures path == Texts(TreeSubproof(sha, nodes, first, true))
    decreases |nodes|
  {
    hide TreePath, TreeRoot, TreeSubproof, TreeInputs, Climbs, Collides;
    var j := first / 2;
    if first == 2 * j {
      ClimbsOnPairs(sha, nodes, j, firstRoot, path, inputs);
      SubproofOfPairs(sha, nodes, j, true);
      PairUpSplits(sha, nodes, j);
      RootOfPairs(sha, nodes[..first]);
      ClimbBinds(sha, PairUp(sha, nodes), j, firstRoot, path, inputs);
    } else {
      assert first == 2 * j + 1;
      OddClimbBinds(sha, nodes, j, firstRoot, path, inputs);
    }
  }

  lemma ClimbsOnPairs(
    sha: Sha, nodes: seq<Digest>, j: nat, firstRoot: HexText, path: seq<HexText>, inputs: set<Preimage>)
    requires 1 <= j && 2 * j < |nodes| && Climbs(sha, nodes, 2 * j, firstRoot, path, inputs)
    ensures j < |PairUp(sha, nodes)| && Climbs(sha, PairUp(sha, nodes), j, firstRoot, path, inputs)
  {
    hide TreeRoot, TreeInputs, And, AscendBoth, AscentInputs, PairUp;
    AndPredecessor(j);
    PairUpSplits(sha, nodes, j);
    RootOfPairs(sha, nodes);
    SkipOnePair(j, |nodes|);
    InputsOfPairs(sha, nodes);
  }

  /** After an odd prefix no level is skipped: the seed is the prefix's last node. */
  lemma OddClimbStart(sha: Sha, nodes: seq<Digest>, j: nat, seed: Digest, rest: seq<HexText>)
    requires 2 * j + 1 < |nodes|
    ensures ClimbFrom(sha, 2 * j + 1, |nodes|, seed, rest) == AscendBoth(sha, 2 * j, |nodes| - 1, seed, seed, rest)
    ensures ClimbInputs(sha, 2 * j + 1, |nodes|, seed, rest) == AscentInputs(sha, 2 * j, |nodes| - 1, seed, rest)
  {
    hide AscendBoth, AscentInputs;
  }

  lemma OddSeedBinds(
    sha: Sha, nodes: seq<Digest>, j: nat, seed: Digest, rest: seq<HexText>, inputs: set<Preimage>)
    requires 2 * j + 1 < |nodes| && !Collides(sha, inputs) && TreeInputs(sha, nodes) <= inputs
    requires AscentInputs(sha, 2 * j, |nodes| - 1, seed, rest) <= inputs
    requires var climb := AscendBoth(sha, 2 * j, |nodes| - 1, seed, seed, rest);
      climb.stop == AtRoot && climb.second == TreeRoot(sha, nodes)
    ensures seed == nodes[2 * j] && rest == Texts(TreePath(sha, nodes, 2 * j))
    ensures AscendBoth(sha, 2 * j, |nodes| - 1, seed, seed, rest).first == TreeRoot(sha, nodes[..2 * j + 1])
  {
    hide TreePath, TreeRoot, TreeInputs, AscendBoth, AscentInputs, Ascend, Collides;
    SecondSideAscends(sha, 2 * j, |nodes| - 1, seed, seed, rest);
    AscentBinds(sha, nodes, 2 * j, seed, rest, inputs);
    ClimbAlongPath(sha, nodes, 2 * j, seed);
    assert nodes[..2 * j] + [nodes[2 * j]] == nodes[..2 * j + 1];
  }

  /** The seed and the rest of a climb after an odd prefix: the path leaves out the seed
      only if the prefix is a single node. */
  lemma OddClimbParts(
    sha: Sha, nodes: seq<Digest>, j: nat, firstRoot: HexText, path: seq<HexText>, inputs: set<Preimage>)
    returns (seed: Digest, rest: seq<HexText>)
    requires 2 * j + 1 < |nodes| && Climbs(sha, nodes, 2 * j + 1, firstRoot, path, inputs)
    ensures path == if j == 0 then rest else [Hex(seed)] + rest
    ensures TreeInputs(sha, nodes) <= inputs && AscentInputs(sha, 2 * j, |nodes| - 1, seed, rest) <= inputs
    ensures var climb := AscendBoth(sha, 2 * j, |nodes| - 1, seed, seed, rest);
      climb.stop == AtRoot && climb.second == TreeRoot(sha, nodes) && firstRoot == Hex(climb.first)
  {
    hide TreeRoot, TreeInputs, And, AscendBoth, AscentInputs, ClimbFrom, ClimbInputs;
    AndPredecessor(j);
    var pathNodes := PathNodes(2 * j + 1, firstRoot, path);
    seed, rest := pathNodes[0].digest, pathNodes[1..];
    OddClimbStart(sha, nodes, j, seed, rest);
    assert pathNodes == [Hex(seed)] + rest;
  }

  lemma OddClimbBinds(
    sha: Sha, nodes: seq<Digest>, j: nat, firstRoot: HexText, path: seq<HexText>, inputs: set<Preimage>)
    requires 2 * j + 1 < |nodes| && !Collides(sha, inputs)
    requires Climbs(sha, nodes, 2 * j + 1, firstRoot, path, inputs)
    ensures firstRoot == Hex(TreeRoot(sha, nodes[..2 * j + 1]))
    ensures path == Texts(TreeSubproof(sha, nodes, 2 * j + 1, true))
  {
    hide TreePath, TreeRoot, TreeSubproof, TreeInputs, AscendBoth, AscentInputs, Climbs, Collides;
    var seed, rest := OddClimbParts(sha, nodes, j, firstRoot, path, inputs);
    OddSeedBinds(sha, nodes, j, seed, rest, inputs);
    OddSubproofFromOldRoot(sha, nodes, j);
    if j > 0 {
      TextsOfSeed(seed, TreePath(sha, nodes, 2 * j));
    }
  }

  lemma TextsOfSeed(seed: Digest, path: seq<Digest>)
    ensures Texts([seed] + path) == [Hex(seed)] + Texts(path)
  {
  }

  /** An accepted check against the root of a list shows that the first root is
      the root of its prefix, and that the path is the proof that would be built;
      or the inputs hashed for the root and for the check contain a collision. */
  lemma ConsistencySound(sha: Sha, leaves: seq<Digest>, first: int, firstRoot: HexText, path: seq<HexText>)
    requires ConsistencyReport(sha, first, |leaves|, firstRoot, Hex(MerkleRoot(sha, leaves)), path).valid
    ensures 0 <= first <= |leaves|
    ensures (firstRoot == Hex(MerkleRoot(sha, leaves[..first]))
             && path == Texts(BuildConsistencyProof(sha, leaves, first).value))
            || Collides(sha, RootInputs(sha, leaves) + ConsistencyInputs(sha, first, |leaves|, firstRoot, path))
  {
    hide MerkleRoot, Subproof, RootInputs, ClimbFrom, ClimbInputs, And;
    if first == 0 {
      EmptyTree(sha);
      assert leaves[..first] == [];
    } else if first == |leaves| {
      assert leaves[..first] == leaves;
    } else {
      AcceptedClimbBinds(sha, leaves, first, firstRoot, path);
    }
  }

  lemma AcceptedClimbBinds(sha: Sha, leaves: seq<Digest>, first: nat, firstRoot: HexText, path: seq<HexText>)
    requires 1 <= first < |leaves|
    requires ConsistencyReport(sha, first, |leaves|, firstRoot, Hex(MerkleRoot(sha, leaves)), path).valid
    ensures (firstRoot == Hex(MerkleRoot(sha, leaves[..first])) && path == Texts(Subproof(sha, leaves, first, true)))
            || Collides(sha, RootInputs(sha, leaves) + ConsistencyInputs(sha, first, |leaves|, firstRoot, path))
  {
    hide MerkleRoot, Subproof, TreeRoot, TreeSubproof, RootInputs, TreeInputs, ClimbFrom, ClimbInputs, And;
    var inputs := RootInputs(sha, leaves) + ConsistencyInputs(sha, first, |leaves|, firstRoot, path);
    if !Collides(sha, inputs) {
      var nodes := LeafHashes(sha, leaves);
      LeafHashesSplit(sha, leaves, first);
      RootOverLeafHashes(sha, leaves);
      RootOverLeafHashes(sha, leaves[..first]);
      SubproofOverLeafHashes(sha, leaves, first, true);
      ClimbBinds(sha, nodes, first, firstRoot, path, inputs);
    }
  }
}
