/** What the violations of an audit chain report say about any log: which rows are
    reported by `verify_organization_audit_chain` of apps/core/audit_chain.py, and
    what each reason means. */
module AuditFaults {
  import opened Hashing
  import opened MerkleTree
  import opened AuditChain
  import opened Sequences
  import opened Wrappers

  // ---------- entries ----------

  /** The number that the scan expects of entry `i`: one more than its predecessor's, whatever
      that is. */
  function ExpectedSeq(entries: seq<Entry>, i: nat): nat
    requires i <= |entries|
  {
    if i == 0 then 1 else entries[i - 1].doc.chainSeq + 1
  }

  /** What is wrong with entry `i`, given its predecessor as it is. */
  ghost predicate Blames(sha: Sha, entries: seq<Entry>, i: nat, v: EntryViolation)
    requires i < |entries|
  {
    && v.id == entries[i].doc.id && v.chainSeq == entries[i].doc.chainSeq && v.expectedSeq == ExpectedSeq(entries, i)
    && v.reasons != []
    && (SequenceGap in v.reasons <==> entries[i].doc.chainSeq != ExpectedSeq(entries, i))
    && (PrevHashMismatch in v.reasons <==> entries[i].doc.prevHash != PrevHash(entries, i))
    && (EntryHashMismatch in v.reasons <==> entries[i].entryHash != Hex(EntryDigest(sha, entries[i])))
  }

  ghost predicate FollowsOn(sha: Sha, entries: seq<Entry>, i: nat)
    requires i < |entries|
  {
    && entries[i].doc.chainSeq == ExpectedSeq(entries, i) && entries[i].doc.prevHash == PrevHash(entries, i)
    && entries[i].entryHash == Hex(EntryDigest(sha, entries[i]))
  }

  lemma FindingsOf(sha: Sha, entries: seq<Entry>, i: nat)
    requires i < |entries|
    ensures var findings := EntryFindings(sha, entries[i], ExpectedSeq(entries, i), PrevHash(entries, i));
      if FollowsOn(sha, entries, i) then findings == [] else |findings| == 1 && Blames(sha, entries, i, findings[0])
  {
  }

  /** The violations are, in order, those of the entries at the given indices, and from `k` on
      every entry that does not follow on is among them. */
  ghost predicate Listed(sha: Sha, entries: seq<Entry>, k: nat, indices: seq<nat>, violations: seq<EntryViolation>) {
    && Indices(indices, k, |entries|) && |indices| == |violations|
    && (forall n :: 0 <= n < |indices| ==> Blames(sha, entries, indices[n], violations[n]))
    && (forall i: nat :: k <= i < |entries| && !FollowsOn(sha, entries, i) ==> i in indices)
  }

  lemma NoneListed(sha: Sha, entries: seq<Entry>)
    ensures Listed(sha, entries, |entries|, [], [])
  {
  }

  lemma ListedSkip(sha: Sha, entries: seq<Entry>, k: nat, indices: seq<nat>, violations: seq<EntryViolation>)
    requires k < |entries| && Listed(sha, entries, k + 1, indices, violations) && FollowsOn(sha, entries, k)
    ensures Listed(sha, entries, k, indices, violations)
  {
    hide Blames, FollowsOn;
    IndicesPrepend(indices, k, |entries|);
  }

  lemma ListedAdd(
    sha: Sha, entries: seq<Entry>, k: nat, indices: seq<nat>, violations: seq<EntryViolation>, v: EntryViolation)
    requires k < |entries| && Listed(sha, entries, k + 1, indices, violations) && Blames(sha, entries, k, v)
    ensures Listed(sha, entries, k, [k] + indices, [v] + violations)
  {
    hide Blames, FollowsOn;
    IndicesPrepend(indices, k, |entries|);
    var more, all := [k] + indices, [v] + violations;
    forall n | 0 <= n < |more| ensures Blames(sha, entries, more[n], all[n]) {
      if n > 0 {
        assert more[n] == indices[n - 1] && all[n] == violations[n - 1];
      }
    }
    forall i: nat | k <= i < |entries| && !FollowsOn(sha, entries, i) ensures i in more {
      assert i == k || i in indices;
    }
  }

  lemma {:induction false} ListedFrom(sha: Sha, entries: seq<Entry>, k: nat) returns (indices: seq<nat>)
    requires k <= |entries|
    ensures Listed(sha, entries, k, indices,
                   EntryViolations(sha, entries[k..], ExpectedSeq(entries, k), PrevHash(entries, k)))
    decreases |entries| - k
  {
    hide EntryFindings, EntryViolations, Blames, FollowsOn, Listed, ExpectedSeq, PrevHash;
    if k == |entries| {
      assert entries[k..] == [];
      NoEntryViolations(sha, ExpectedSeq(entries, k), PrevHash(entries, k));
      NoneListed(sha, entries);
      indices := [];
    } else {
      indices := ListedFrom(sha, entries, k + 1);
      var rest := EntryViolations(sha, entries[k + 1..], ExpectedSeq(entries, k + 1), PrevHash(entries, k + 1));
      var findings := EntryFindings(sha, entries[k], ExpectedSeq(entries, k), PrevHash(entries, k));
      FindingsOf(sha, entries, k);
      ViolationsHead(sha, entries, k);
      if FollowsOn(sha, entries, k) {
        ListedSkip(sha, entries, k, indices, rest);
        assert [] + rest == rest;
      } else {
        ListedAdd(sha, entries, k, indices, rest, findings[0]);
        assert findings == [findings[0]];
        indices := [k] + indices;
      }
    }
  }

  /** The violations of any log: in order, one for each entry that does not follow on its
      predecessor or does not carry its own hash, and each says exactly what is wrong. */
  lemma ViolationsExact(sha: Sha, entries: seq<Entry>) returns (indices: seq<nat>)
    ensures Listed(sha, entries, 0, indices, EntryViolations(sha, entries, 1, GENESIS))
  {
    hide Listed, EntryViolations;
    indices := ListedFrom(sha, entries, 0);
    assert entries[0..] == entries;
  }

  lemma NoEntryViolations(sha: Sha, expectedSeq: nat, expectedPrev: HexText)
    ensures EntryViolations(sha, [], expectedSeq, expectedPrev) == []
  {
  }

  lemma ViolationsHead(sha: Sha, entries: seq<Entry>, k: nat)
    requires k < |entries|
    ensures EntryViolations(sha, entries[k..], ExpectedSeq(entries, k), PrevHash(entries, k))
         == EntryFindings(sha, entries[k], ExpectedSeq(entries, k), PrevHash(entries, k))
            + EntryViolations(sha, entries[k + 1..], ExpectedSeq(entries, k + 1), PrevHash(entries, k + 1))
  {
    hide EntryFindings;
    assert entries[k..][1..] == entries[k + 1..];
  }

  // ---------- checkpoints ----------

  function ExpectedNumber(checkpoints: seq<Checkpoint>, j: nat): nat
    requires j <= |checkpoints|
  {
    if j == 0 then 1 else checkpoints[j - 1].doc.checkpointSeq + 1
  }

  /** What each reason against checkpoint `j` over a sealed log means, given its predecessor
      as it is. */
  ghost predicate ReasonsMean(
    env: Env, entries: seq<Entry>, checkpoints: seq<Checkpoint>, j: nat, reasons: seq<CheckpointReason>)
    requires j < |checkpoints|
  {
    var k, hash := checkpoints[j], CheckpointDigest(env.sha, checkpoints[j]);
    && (CheckpointSequenceGap in reasons <==> k.doc.checkpointSeq != ExpectedNumber(checkpoints, j))
    && (CheckpointPrevHashMismatch in reasons <==> k.doc.prevCheckpointHash != PrevCheckpointHash(checkpoints, j))
    && (CheckpointHashMismatch in reasons <==> k.checkpointHash != Hex(hash))
    && (CheckpointSignatureMismatch in reasons <==> k.signature != env.mac(hash))
    && (PublicKeyUnavailable in reasons || PublicKeyMismatch in reasons || AsymmetricSignatureMismatch in reasons
        <==> !Authentic(env, k))
    && (AnchorDivergence in reasons <==> AnchorMissing(entries, k.doc))
    && (CheckpointMerkleRootMismatch in reasons <==> RootWrong(env.sha, entries, k.doc))
  }

  ghost predicate BlamesCheckpoint(
    env: Env, entries: seq<Entry>, checkpoints: seq<Checkpoint>, j: nat, v: CheckpointViolation)
    requires j < |checkpoints|
  {
    var doc := checkpoints[j].doc;
    && v.id == doc.id && v.checkpointSeq == doc.checkpointSeq && v.coveredUpToSeq == doc.coveredUpToSeq
    && v.reasons != [] && ReasonsMean(env, entries, checkpoints, j, v.reasons)
  }

  /** Checkpoint `j` follows on its predecessor and is right about the log. */
  ghost predicate CheckpointFollowsOn(env: Env, entries: seq<Entry>, checkpoints: seq<Checkpoint>, j: nat)
    requires j < |checkpoints|
  {
    var k := checkpoints[j];
    && k.doc.checkpointSeq == ExpectedNumber(checkpoints, j)
    && k.doc.prevCheckpointHash == PrevCheckpointHash(checkpoints, j)
    && k.checkpointHash == Hex(CheckpointDigest(env.sha, k)) && k.signature == env.mac(CheckpointDigest(env.sha, k))
    && Authentic(env, k) && Anchors(env.sha, entries, k.doc)
  }

  predicate AnchorMissing(entries: seq<Entry>, doc: CheckpointDoc) {
    var c := doc.coveredUpToSeq;
    c > 0 && (c > |entries| || doc.headHash != entries[c - 1].entryHash)
  }

  predicate RootWrong(sha: Sha, entries: seq<Entry>, doc: CheckpointDoc) {
    var c := doc.coveredUpToSeq;
    doc.merkleRoot.Some? &&
    (c > |entries| || doc.merkleRoot.value != Hex(MerkleRoot(sha, Digests(sha, entries)[..c])))
  }

  lemma AnchorFaults(sha: Sha, entries: seq<Entry>, doc: CheckpointDoc)
    requires Sealed(sha, entries)
    ensures AnchorReasons(HashBySeq(entries), doc)
         == if AnchorMissing(entries, doc) then [AnchorDivergence] else []
  {
    hide HashBySeq, Sealed, Collect, Decode, LeavesComplete, Digests;
    if doc.coveredUpToSeq <= |entries| {
      CoveredLeaves(sha, entries, doc.coveredUpToSeq);
    } else {
      MissingLeaves(sha, entries, doc.coveredUpToSeq);
    }
  }

  lemma RootFaults(sha: Sha, entries: seq<Entry>, doc: CheckpointDoc)
    requires Sealed(sha, entries)
    ensures !MerkleRaises(HashBySeq(entries), doc)
    ensures MerkleReasons(sha, HashBySeq(entries), doc)
         == if RootWrong(sha, entries, doc) then [CheckpointMerkleRootMismatch] else []
  {
    hide MerkleRoot, HashBySeq, Collect, Decode, LeavesComplete, Sealed, Digests;
    if doc.coveredUpToSeq <= |entries| {
      CoveredLeaves(sha, entries, doc.coveredUpToSeq);
    } else {
      MissingLeaves(sha, entries, doc.coveredUpToSeq);
    }
  }

  lemma FourFlags(a: bool, b: bool, c: bool, d: bool)
    ensures var reasons := (if a then [CheckpointSequenceGap] else [])
                           + (if b then [CheckpointPrevHashMismatch] else [])
                           + (if c then [CheckpointHashMismatch] else [])
                           + (if d then [CheckpointSignatureMismatch] else []);
      && (CheckpointSequenceGap in reasons <==> a) && (CheckpointPrevHashMismatch in reasons <==> b)
      && (CheckpointHashMismatch in reasons <==> c) && (CheckpointSignatureMismatch in reasons <==> d)
      && (forall r :: r in reasons ==> IsLinkReason(r))
  {
  }

  lemma LinkFaults(env: Env, k: Checkpoint, expectedSeq: nat, expectedPrev: HexText)
    ensures var reasons, hash := LinkReasons(env, k, expectedSeq, expectedPrev), CheckpointDigest(env.sha, k);
      && (CheckpointSequenceGap in reasons <==> k.doc.checkpointSeq != expectedSeq)
      && (CheckpointPrevHashMismatch in reasons <==> k.doc.prevCheckpointHash != expectedPrev)
      && (CheckpointHashMismatch in reasons <==> k.checkpointHash != Hex(hash))
      && (CheckpointSignatureMismatch in reasons <==> k.signature != env.mac(hash))
      && (forall r :: r in reasons ==> IsLinkReason(r))
  {
    hide CheckpointDigest, IsLinkReason;
    var hash := CheckpointDigest(env.sha, k);
    FourFlags(k.doc.checkpointSeq != expectedSeq, k.doc.prevCheckpointHash != expectedPrev,
              k.checkpointHash != Hex(hash), k.signature != env.mac(hash));
  }

  lemma LinkSilent(env: Env, k: Checkpoint, expectedSeq: nat, expectedPrev: HexText)
    ensures LinkReasons(env, k, expectedSeq, expectedPrev) == [] <==>
      && k.doc.checkpointSeq == expectedSeq && k.doc.prevCheckpointHash == expectedPrev
      && k.checkpointHash == Hex(CheckpointDigest(env.sha, k))
      && k.signature == env.mac(CheckpointDigest(env.sha, k))
  {
  }

  lemma AsymmetricKinds(env: Env, k: Checkpoint)
    ensures var reasons := AsymmetricReasons(env, k);
      && (forall r :: r in reasons ==> IsKeyReason(r))
      && (reasons != [] ==> reasons[0] in reasons)
  {
  }

  predicate IsLinkReason(r: CheckpointReason) {
    r.CheckpointSequenceGap? || r.CheckpointPrevHashMismatch? || r.CheckpointHashMismatch?
    || r.CheckpointSignatureMismatch?
  }

  predicate IsKeyReason(r: CheckpointReason) {
    r.PublicKeyUnavailable? || r.PublicKeyMismatch? || r.AsymmetricSignatureMismatch?
  }

  /** Where each of the reasons in the whole list comes from. */
  lemma PartsOfReasons(
    link: seq<CheckpointReason>, asymmetric: seq<CheckpointReason>, anchor: bool, root: bool)
    requires (forall r :: r in link ==> IsLinkReason(r)) && (forall r :: r in asymmetric ==> IsKeyReason(r))
    ensures var all := link + asymmetric + (if anchor then [AnchorDivergence] else [])
                       + (if root then [CheckpointMerkleRootMismatch] else []);
      && (CheckpointSequenceGap in all <==> CheckpointSequenceGap in link)
      && (CheckpointPrevHashMismatch in all <==> CheckpointPrevHashMismatch in link)
      && (CheckpointHashMismatch in all <==> CheckpointHashMismatch in link)
      && (CheckpointSignatureMismatch in all <==> CheckpointSignatureMismatch in link)
      && (PublicKeyUnavailable in all || PublicKeyMismatch in all || AsymmetricSignatureMismatch in all
          <==> asymmetric != [])
      && (AnchorDivergence in all <==> anchor) && (CheckpointMerkleRootMismatch in all <==> root)
      && (all == [] <==> link == [] && asymmetric == [] && !anchor && !root)
  {
    assert asymmetric != [] ==> asymmetric[0] in asymmetric;
  }

  lemma ReasonsOf(env: Env, entries: seq<Entry>, checkpoints: seq<Checkpoint>, j: nat)
    requires Sealed(env.sha, entries) && j < |checkpoints|
    ensures !MerkleRaises(HashBySeq(entries), checkpoints[j].doc)
    ensures var reasons := CheckpointReasons(
              env, HashBySeq(entries), checkpoints[j], ExpectedNumber(checkpoints, j),
              PrevCheckpointHash(checkpoints, j));
      && ReasonsMean(env, entries, checkpoints, j, reasons)
      && (reasons == [] <==> CheckpointFollowsOn(env, entries, checkpoints, j))
  {
    hide MerkleRoot, HashBySeq, Sealed, AnchorReasons, MerkleReasons, MerkleRaises, AsymmetricReasons, Authentic,
      Digests, LinkReasons, AnchorMissing, RootWrong, Anchors, IsLinkReason, IsKeyReason, CheckpointDigest;
    var k := checkpoints[j];
    AnchorFaults(env.sha, entries, k.doc);
    RootFaults(env.sha, entries, k.doc);
    AnchorsExactly(env.sha, entries, k.doc);
    AsymmetricCheckExact(env, k);
    AsymmetricKinds(env, k);
    var link := LinkReasons(env, k, ExpectedNumber(checkpoints, j), PrevCheckpointHash(checkpoints, j));
    LinkFaults(env, k, ExpectedNumber(checkpoints, j), PrevCheckpointHash(checkpoints, j));
    LinkSilent(env, k, ExpectedNumber(checkpoints, j), PrevCheckpointHash(checkpoints, j));
    PartsOfReasons(link, AsymmetricReasons(env, k), AnchorMissing(entries, k.doc), RootWrong(env.sha, entries, k.doc));
  }

  lemma CheckpointFindingsOf(env: Env, entries: seq<Entry>, checkpoints: seq<Checkpoint>, j: nat)
    requires Sealed(env.sha, entries) && j < |checkpoints|
    ensures !MerkleRaises(HashBySeq(entries), checkpoints[j].doc)
    ensures var findings := CheckpointFindings(
              env, HashBySeq(entries), checkpoints[j], ExpectedNumber(checkpoints, j),
              PrevCheckpointHash(checkpoints, j));
      if CheckpointFollowsOn(env, entries, checkpoints, j) then findings == []
      else |findings| == 1 && BlamesCheckpoint(env, entries, checkpoints, j, findings[0])
  {
    hide HashBySeq, Sealed, MerkleRaises, CheckpointReasons, ReasonsMean, CheckpointFollowsOn;
    ReasonsOf(env, entries, checkpoints, j);
  }

  lemma AnchorsExactly(sha: Sha, entries: seq<Entry>, doc: CheckpointDoc)
    requires Sealed(sha, entries)
    ensures Anchors(sha, entries, doc) <==>
      !(AnchorReasons(HashBySeq(entries), doc) != [] || MerkleRaises(HashBySeq(entries), doc)
        || MerkleReasons(sha, HashBySeq(entries), doc) != [])
  {
    hide MerkleRoot, HashBySeq, Sealed, AnchorReasons, MerkleReasons, MerkleRaises, Anchors;
    AnchorChecksExact(sha, entries, doc);
  }

  /** Like `Listed`, for the checkpoints. */
  ghost predicate ListedCheckpoints(
    env: Env, entries: seq<Entry>, checkpoints: seq<Checkpoint>, m: nat, indices: seq<nat>,
    violations: seq<CheckpointViolation>)
  {
    && Indices(indices, m, |checkpoints|) && |indices| == |violations|
    && (forall n :: 0 <= n < |indices| ==> BlamesCheckpoint(env, entries, checkpoints, indices[n], violations[n]))
    && (forall j: nat :: m <= j < |checkpoints| && !CheckpointFollowsOn(env, entries, checkpoints, j) ==> j in indices)
  }

  lemma NoCheckpointsListed(env: Env, entries: seq<Entry>, checkpoints: seq<Checkpoint>)
    ensures ListedCheckpoints(env, entries, checkpoints, |checkpoints|, [], [])
  {
  }

  lemma ListedCheckpointsMore(
    env: Env, entries: seq<Entry>, checkpoints: seq<Checkpoint>, m: nat, indices: seq<nat>,
    violations: seq<CheckpointViolation>)
    requires m < |checkpoints| && ListedCheckpoints(env, entries, checkpoints, m + 1, indices, violations)
    ensures CheckpointFollowsOn(env, entries, checkpoints, m) ==>
              ListedCheckpoints(env, entries, checkpoints, m, indices, violations)
    ensures forall v :: BlamesCheckpoint(env, entries, checkpoints, m, v) ==>
              ListedCheckpoints(env, entries, checkpoints, m, [m] + indices, [v] + violations)
  {
    hide BlamesCheckpoint, CheckpointFollowsOn;
    IndicesPrepend(indices, m, |checkpoints|);
  }

  lemma {:induction false} ListedCheckpointsFrom(
    env: Env, entries: seq<Entry>, checkpoints: seq<Checkpoint>, m: nat) returns (indices: seq<nat>)
    requires Sealed(env.sha, entries) && m <= |checkpoints|
    requires forall k :: k in checkpoints ==> !MerkleRaises(HashBySeq(entries), k.doc)
    ensures ListedCheckpoints(env, entries, checkpoints, m, indices, ViolationsFrom(env, entries, checkpoints, m))
    decreases |checkpoints| - m
  {
    hide CheckpointFindings, BlamesCheckpoint, CheckpointFollowsOn, MerkleRaises, HashBySeq, Sealed, ListedCheckpoints,
      ViolationsFrom, ExpectedNumber, PrevCheckpointHash;
    if m == |checkpoints| {
      NoCheckpointViolations(env, entries, checkpoints);
      NoCheckpointsListed(env, entries, checkpoints);
      indices := [];
    } else {
      indices := ListedCheckpointsFrom(env, entries, checkpoints, m + 1);
      var rest := ViolationsFrom(env, entries, checkpoints, m + 1);
      CheckpointFindingsOf(env, entries, checkpoints, m);
      CheckpointViolationsHead(env, entries, checkpoints, m);
      ListedCheckpointsMore(env, entries, checkpoints, m, indices, rest);
      if CheckpointFollowsOn(env, entries, checkpoints, m) {
        assert [] + rest == rest;
      } else {
        var findings := CheckpointFindings(env, HashBySeq(entries), checkpoints[m], ExpectedNumber(checkpoints, m),
                                           PrevCheckpointHash(checkpoints, m));
        assert findings == [findings[0]];
        indices := [m] + indices;
      }
    }
  }

  /** The checkpoint violations over a sealed log: in order, one for each checkpoint that
      does not follow on its predecessor, does not carry its own hash and accepted
      signatures, or is wrong about the log, and each says exactly what is wrong. */
  lemma CheckpointViolationsExact(env: Env, entries: seq<Entry>, checkpoints: seq<Checkpoint>)
    returns (indices: seq<nat>)
    requires Sealed(env.sha, entries)
    ensures forall k :: k in checkpoints ==> !MerkleRaises(HashBySeq(entries), k.doc)
    ensures ListedCheckpoints(env, entries, checkpoints, 0, indices,
                              CheckpointViolations(env, HashBySeq(entries), checkpoints, 1, GENESIS))
  {
    hide CheckpointViolations, ListedCheckpoints, MerkleRaises, HashBySeq, Sealed;
    NothingRaises(env, entries, checkpoints);
    indices := ListedCheckpointsFrom(env, entries, checkpoints, 0);
    assert checkpoints[0..] == checkpoints;
  }

  function ViolationsFrom(env: Env, entries: seq<Entry>, checkpoints: seq<Checkpoint>, m: nat)
    : seq<CheckpointViolation>
    requires m <= |checkpoints| && forall k :: k in checkpoints ==> !MerkleRaises(HashBySeq(entries), k.doc)
  {
    CheckpointViolations(
      env, HashBySeq(entries), checkpoints[m..], ExpectedNumber(checkpoints, m), PrevCheckpointHash(checkpoints, m))
  }

  lemma NothingRaises(env: Env, entries: seq<Entry>, checkpoints: seq<Checkpoint>)
    requires Sealed(env.sha, entries)
    ensures forall k :: k in checkpoints ==> !MerkleRaises(HashBySeq(entries), k.doc)
  {
    hide MerkleRaises, HashBySeq, Sealed;
    forall k | k in checkpoints ensures !MerkleRaises(HashBySeq(entries), k.doc) {
      AnchorChecksExact(env.sha, entries, k.doc);
    }
  }

  lemma NoCheckpointViolations(env: Env, entries: seq<Entry>, checkpoints: seq<Checkpoint>)
    requires forall k :: k in checkpoints ==> !MerkleRaises(HashBySeq(entries), k.doc)
    ensures ViolationsFrom(env, entries, checkpoints, |checkpoints|) == []
  {
    hide MerkleRaises, HashBySeq;
  }

  lemma CheckpointViolationsHead(env: Env, entries: seq<Entry>, checkpoints: seq<Checkpoint>, m: nat)
    requires m < |checkpoints| && forall k :: k in checkpoints ==> !MerkleRaises(HashBySeq(entries), k.doc)
    ensures ViolationsFrom(env, entries, checkpoints, m)
         == CheckpointFindings(
              env, HashBySeq(entries), checkpoints[m], ExpectedNumber(checkpoints, m),
              PrevCheckpointHash(checkpoints, m))
            + ViolationsFrom(env, entries, checkpoints, m + 1)
  {
    hide CheckpointFindings, MerkleRaises, HashBySeq;
    assert checkpoints[m..][1..] == checkpoints[m + 1..];
  }
}
