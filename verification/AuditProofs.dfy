/** Proof bundles over the audit log (`build_audit_entry_inclusion_bundle`,
    `verify_audit_inclusion_bundle_offline` and
    `build_checkpoint_consistency_bundle` of apps/core/audit_chain.py), and when
    the bundles of a running system verify. */
module AuditProofs {
  import opened Hashing
  import opened MerkleTree
  import opened AuditChain
  import opened AuditLog
  import opened Wrappers
  import opened Sequences
  import MI = MerkleInclusion
  import MC = MerkleConsistency

  datatype BundleError =
    | EntryNotFound
    | CheckpointNotFound
    | CheckpointPrecedesEntry
    | EntryNotYetCheckpointed
    | NoCheckpointsFound
    | InvalidCheckpointOrder
    | SequenceDiscontinuity
    | MalformedHash
    | ProofRefused(proof: ProofError)

  /** `entryHash` is the hash that the proof part of the bundle repeats. */
  datatype InclusionBundle = InclusionBundle(
    entry: Entry,
    entryHash: HexText,
    leafIndex: int,
    treeSize: nat,
    merkleRoot: HexText,
    auditPath: seq<HexText>,
    checkpoint: Checkpoint)

  function FirstEntry(rows: seq<Entry>, id: string): Option<Entry> {
    if rows == [] then None
    else if rows[0].doc.id == id then Some(rows[0])
    else FirstEntry(rows[1..], id)
  }

  function FirstCheckpoint(checkpoints: seq<Checkpoint>, id: string): Option<Checkpoint> {
    if checkpoints == [] then None
    else if checkpoints[0].doc.id == id then Some(checkpoints[0])
    else FirstCheckpoint(checkpoints[1..], id)
  }

  /** The checkpoint with the highest number among those that cover `seqNo`. */
  function LatestCovering(checkpoints: seq<Checkpoint>, seqNo: nat): Option<Checkpoint> {
    if checkpoints == [] then
      None
    else
      var last := checkpoints[|checkpoints| - 1];
      if last.doc.coveredUpToSeq >= seqNo then Some(last)
      else LatestCovering(checkpoints[..|checkpoints| - 1], seqNo)
  }

  function PickCheckpoint(
    checkpoints: seq<Checkpoint>, seqNo: nat, id: Option<string>): Result<Checkpoint, BundleError>
  {
    match id
    case Some(id) =>
      (match FirstCheckpoint(checkpoints, id)
       case None => Err(CheckpointNotFound)
       case Some(k) => if k.doc.coveredUpToSeq < seqNo then Err(CheckpointPrecedesEntry) else Ok(k))
    case None =>
      (match LatestCovering(checkpoints, seqNo)
       case None => Err(EntryNotYetCheckpointed)
       case Some(k) => Ok(k))
  }

  /** The stored hashes of the rows numbered up to `size`. */
  function LeafTexts(rows: seq<Entry>, size: nat): seq<HexText> {
    if rows == [] then []
    else (if rows[0].doc.chainSeq <= size then [rows[0].entryHash] else []) + LeafTexts(rows[1..], size)
  }

  function Leaves(rows: seq<Entry>, size: nat): Result<seq<Digest>, BundleError> {
    var texts := LeafTexts(rows, size);
    if |texts| != size then Err(SequenceDiscontinuity)
    else match Decode(texts)
      case None => Err(MalformedHash)
      case Some(leaves) => Ok(leaves)
  }

  function StoredRoot(sha: Sha, checkpoint: Checkpoint, leaves: seq<Digest>): HexText {
    if checkpoint.doc.merkleRoot.Some? then checkpoint.doc.merkleRoot.value else Hex(MerkleRoot(sha, leaves))
  }

  /** `rows` and `checkpoints` are one tenant's, in number order. */
  function BuildInclusionBundle(
    sha: Sha, rows: seq<Entry>, checkpoints: seq<Checkpoint>, entryId: string, checkpointId: Option<string>)
    : Result<InclusionBundle, BundleError>
  {
    match FirstEntry(rows, entryId)
    case None => Err(EntryNotFound)
    case Some(entry) =>
      match PickCheckpoint(checkpoints, entry.doc.chainSeq, checkpointId)
      case Err(error) => Err(error)
      case Ok(checkpoint) =>
        var size := checkpoint.doc.coveredUpToSeq;
        match Leaves(rows, size)
        case Err(error) => Err(error)
        case Ok(leaves) =>
          match BuildInclusionProof(sha, leaves, entry.doc.chainSeq - 1)
          case Err(error) => Err(ProofRefused(error))
          case Ok(path) =>
            var root := StoredRoot(sha, checkpoint, leaves);
            var shown := checkpoint.(doc := checkpoint.doc.(merkleRoot := Some(root)));
            Ok(InclusionBundle(entry, entry.entryHash, entry.doc.chainSeq - 1, size, root, Texts(path), shown))
  }

  datatype OfflineReason =
    | EntryHashDiffers
    | ProofFails(reason: MI.Reason)
    | CheckpointHashDiffers
    | SignatureFails(why: CheckpointReason)

  function Tagged<T, U>(items: seq<T>, tag: T -> U): seq<U> {
    if items == [] then [] else [tag(items[0])] + Tagged(items[1..], tag)
  }

  /** The check of a signed checkpoint with nothing but a public key. */
  function CheckpointOffline(sha: Sha, key: PublicKey, checkpoint: Checkpoint): seq<OfflineReason> {
    (if checkpoint.checkpointHash == Hex(CheckpointDigest(sha, checkpoint)) then [] else [CheckpointHashDiffers])
    + Tagged(SignatureReasons(key, CheckpointDigest(sha, checkpoint), checkpoint), r => SignatureFails(r))
  }

  /** The hash that a bundle claims for its entry: the one in the proof part stands in for a
      missing one. */
  function ClaimedHash(bundle: InclusionBundle): HexText {
    if bundle.entry.entryHash != Other("") then bundle.entry.entryHash else bundle.entryHash
  }

  function OfflineReasons(sha: Sha, key: Option<PublicKey>, bundle: InclusionBundle): seq<OfflineReason> {
    var leaf := Hex(EntryDigest(sha, bundle.entry));
    var expectedRoot := if bundle.checkpoint.doc.merkleRoot.Some? then bundle.checkpoint.doc.merkleRoot.value
                        else bundle.merkleRoot;
    var proof := MI.InclusionVerdict(sha, leaf, bundle.leafIndex, bundle.treeSize, bundle.auditPath, expectedRoot);
    (if ClaimedHash(bundle) == leaf then [] else [EntryHashDiffers])
    + (if proof.valid then [] else Tagged(proof.reasons, r => ProofFails(r)))
    + (if key.Some? && bundle.checkpoint.asymmetricSignature != ""
       then CheckpointOffline(sha, key.value, bundle.checkpoint) else [])
  }

  // ---------- what the offline verifier accepts ----------

  lemma {:induction false} TaggedExact<T, U>(items: seq<T>, tag: T -> U)
    ensures |Tagged(items, tag)| == |items|
    ensures forall i :: 0 <= i < |items| ==> Tagged(items, tag)[i] == tag(items[i])
  {
    if items != [] {
      TaggedExact(items[1..], tag);
    }
  }

  /** A checkpoint passes with nothing but a public key exactly if it carries its own hash and
      the key accepts its signature over that hash. */
  lemma CheckpointOfflineExact(sha: Sha, key: PublicKey, k: Checkpoint)
    ensures CheckpointOffline(sha, key, k) == [] <==>
      k.checkpointHash == Hex(CheckpointDigest(sha, k)) && SignedWith(key, CheckpointDigest(sha, k), k)
  {
    hide SignatureReasons, SignedWith, Tagged;
    SignatureCheckExact(key, CheckpointDigest(sha, k), k);
    TaggedExact(SignatureReasons(key, CheckpointDigest(sha, k), k), r => SignatureFails(r));
  }

  /** The root that the offline check compares with. */
  function ExpectedRoot(bundle: InclusionBundle): HexText {
    if bundle.checkpoint.doc.merkleRoot.Some? then bundle.checkpoint.doc.merkleRoot.value else bundle.merkleRoot
  }

  /** A bundle passes exactly if the hash it claims is that of its document, its path leads
      from there to its root, and, when there are a signature and a key, its checkpoint
      carries its own hash and the key accepts the signature over it. */
  lemma OfflineExact(sha: Sha, key: Option<PublicKey>, bundle: InclusionBundle)
    ensures var leaf := Hex(EntryDigest(sha, bundle.entry)); var k := bundle.checkpoint;
      OfflineReasons(sha, key, bundle) == [] <==>
        && (if bundle.entry.entryHash == Other("") then bundle.entryHash else bundle.entry.entryHash) == leaf
        && MI.InclusionVerdict(
             sha, leaf, bundle.leafIndex, bundle.treeSize, bundle.auditPath, ExpectedRoot(bundle)).valid
        && (key.Some? && k.asymmetricSignature != "" ==>
              && k.checkpointHash == Hex(CheckpointDigest(sha, k))
              && SignedWith(key.value, CheckpointDigest(sha, k), k))
  {
    hide SignedWith, CheckpointOffline, Tagged, MI.Ascend;
    var leaf := Hex(EntryDigest(sha, bundle.entry));
    var verdict := MI.InclusionVerdict(
      sha, leaf, bundle.leafIndex, bundle.treeSize, bundle.auditPath, ExpectedRoot(bundle));
    TaggedExact(verdict.reasons, r => ProofFails(r));
    if key.Some? {
      CheckpointOfflineExact(sha, key.value, bundle.checkpoint);
    }
  }

  datatype ConsistencyBundle = ConsistencyBundle(
    firstSize: nat, secondSize: nat, firstRoot: HexText, secondRoot: HexText, path: seq<HexText>, report: MC.Report)

  function CheckpointNumbered(checkpoints: seq<Checkpoint>, number: nat): Option<Checkpoint> {
    if checkpoints == [] then
      None
    else
      var last := checkpoints[|checkpoints| - 1];
      if last.doc.checkpointSeq == number then Some(last)
      else CheckpointNumbered(checkpoints[..|checkpoints| - 1], number)
  }

  function BuildConsistencyBundle(
    sha: Sha, rows: seq<Entry>, checkpoints: seq<Checkpoint>, from: Option<nat>, to: Option<nat>)
    : Result<ConsistencyBundle, BundleError>
  {
    if checkpoints == [] then
      Err(NoCheckpointsFound)
    else
      var first := if from.Some? then CheckpointNumbered(checkpoints, from.value) else Some(checkpoints[0]);
      var second := if to.Some? then CheckpointNumbered(checkpoints, to.value)
                    else Some(checkpoints[|checkpoints| - 1]);
      if first.None? || second.None? then
        Err(CheckpointNotFound)
      else if first.value.doc.checkpointSeq > second.value.doc.checkpointSeq then
        Err(InvalidCheckpointOrder)
      else
        BundleBetween(sha, rows, first.value, second.value)
  }

  function BundleBetween(sha: Sha, rows: seq<Entry>, first: Checkpoint, second: Checkpoint)
    : Result<ConsistencyBundle, BundleError>
  {
    var m, n := first.doc.coveredUpToSeq, second.doc.coveredUpToSeq;
    match Leaves(rows, n)
    case Err(error) => Err(error)
    case Ok(leaves) =>
      match BuildConsistencyProof(sha, leaves, m)
      case Err(error) => Err(ProofRefused(error))
      case Ok(path) =>
        var firstRoot := StoredRoot(sha, first, leaves[..m]);
        var secondRoot := StoredRoot(sha, second, leaves);
        Ok(ConsistencyBundle(m, n, firstRoot, secondRoot, Texts(path),
                             MC.ConsistencyReport(sha, m, n, firstRoot, secondRoot, Texts(path))))
  }

  // ---------- bundles over sealed logs ----------

  lemma {:induction false} LeafTextsBeyond(sha: Sha, entries: seq<Entry>, k: nat, size: nat)
    requires Sealed(sha, entries) && size <= |entries| && k <= |entries|
    ensures LeafTexts(entries[k..], size)
         == if k <= size then Texts(Digests(sha, entries)[k..size]) else []
    decreases |entries| - k
  {
    if k < |entries| {
      hide Sealed;
      var rest, digests := entries[k + 1..], Digests(sha, entries);
      assert entries[k..][1..] == rest;
      assert entries[k].doc.chainSeq == k + 1 && entries[k].entryHash == Hex(digests[k]) by {
        SealedEntry(sha, entries, k);
      }
      LeafTextsBeyond(sha, entries, k + 1, size);
      if k < size {
        assert Texts(digests[k..size]) == [Hex(digests[k])] + Texts(digests[k + 1..size]);
      }
    }
  }

  lemma SealedEntry(sha: Sha, entries: seq<Entry>, k: nat)
    requires Sealed(sha, entries) && k < |entries|
    ensures entries[k].doc.chainSeq == k + 1 && entries[k].entryHash == Hex(Digests(sha, entries)[k])
  {
    assert SealedAt(sha, entries, k);
  }

  /** A sealed log has a leaf for every number up to its length. */
  lemma SealedLeaves(sha: Sha, rows: seq<Entry>, size: nat)
    requires Sealed(sha, rows) && size <= |rows|
    ensures Leaves(rows, size) == Ok(Digests(sha, rows)[..size])
  {
    LeafTextsBeyond(sha, rows, 0, size);
    assert rows[0..] == rows && Digests(sha, rows)[0..size] == Digests(sha, rows)[..size];
    DecodeTexts(Digests(sha, rows)[..size]);
  }

  lemma {:induction false} FirstEntryIsRow(rows: seq<Entry>, id: string)
    ensures match FirstEntry(rows, id)
      case None => forall e :: e in rows ==> e.doc.id != id
      case Some(e) => e in rows && e.doc.id == id
  {
    if rows != [] && rows[0].doc.id != id {
      FirstEntryIsRow(rows[1..], id);
    }
  }

  lemma {:induction false} FirstCheckpointIsRow(checkpoints: seq<Checkpoint>, id: string)
    ensures match FirstCheckpoint(checkpoints, id)
      case None => forall k :: k in checkpoints ==> k.doc.id != id
      case Some(k) => k in checkpoints && k.doc.id == id
  {
    if checkpoints != [] && checkpoints[0].doc.id != id {
      FirstCheckpointIsRow(checkpoints[1..], id);
    }
  }

  lemma {:induction false} LatestCoveringExact(checkpoints: seq<Checkpoint>, seqNo: nat)
    ensures match LatestCovering(checkpoints, seqNo)
      case None => forall k :: k in checkpoints ==> k.doc.coveredUpToSeq < seqNo
      case Some(k) =>
        exists i :: 0 <= i < |checkpoints| && checkpoints[i] == k && k.doc.coveredUpToSeq >= seqNo
          && forall j :: i < j < |checkpoints| ==> checkpoints[j].doc.coveredUpToSeq < seqNo
  {
    if checkpoints != [] {
      LatestCoveringExact(checkpoints[..|checkpoints| - 1], seqNo);
      assert checkpoints == checkpoints[..|checkpoints| - 1] + [checkpoints[|checkpoints| - 1]];
      assert forall i :: 0 <= i < |checkpoints| - 1 ==> checkpoints[..|checkpoints| - 1][i] == checkpoints[i];
    }
  }

  /** Which checkpoint a bundle uses: the one asked for, if it is there and covers the
      entry, or else the last one in number order that does. */
  lemma PickExactly(checkpoints: seq<Checkpoint>, seqNo: nat, id: Option<string>)
    ensures var picked := PickCheckpoint(checkpoints, seqNo, id);
      && (picked == Err(CheckpointNotFound) <==> id.Some? && forall k :: k in checkpoints ==> k.doc.id != id.value)
      && (picked == Err(EntryNotYetCheckpointed) <==>
            id == None && forall k :: k in checkpoints ==> k.doc.coveredUpToSeq < seqNo)
      && (picked == Err(CheckpointPrecedesEntry) ==>
            id.Some? && exists k :: k in checkpoints && k.doc.id == id.value && k.doc.coveredUpToSeq < seqNo)
      && (picked.Err? ==> picked.error in {CheckpointNotFound, EntryNotYetCheckpointed, CheckpointPrecedesEntry})
      && (picked.Ok? ==> picked.value in checkpoints && picked.value.doc.coveredUpToSeq >= seqNo)
      && (picked.Ok? && id.Some? ==> picked.value.doc.id == id.value)
      && (picked.Ok? && id == None ==>
            exists i :: 0 <= i < |checkpoints| && checkpoints[i] == picked.value
              && forall j :: i < j < |checkpoints| ==> checkpoints[j].doc.coveredUpToSeq < seqNo)
  {
    LatestCoveringExact(checkpoints, seqNo);
    if id.Some? {
      FirstCheckpointIsRow(checkpoints, id.value);
    }
  }

  /** Over a sealed log, a bundle is built whenever the entry and a covering
      checkpoint are found, and it verifies offline with the key in force. */
  lemma SealedInclusionBundle(
    env: Env, rows: seq<Entry>, checkpoints: seq<Checkpoint>, entryId: string, checkpointId: Option<string>)
    requires Sealed(env.sha, rows) && CheckpointsSealed(env, rows, checkpoints)
    requires forall k :: k in checkpoints ==> k.doc.merkleRoot.Some?
    ensures var entry := FirstEntry(rows, entryId);
      var bundle := BuildInclusionBundle(env.sha, rows, checkpoints, entryId, checkpointId);
      && (bundle.Ok? <==> entry.Some? && PickCheckpoint(checkpoints, entry.value.doc.chainSeq, checkpointId).Ok?)
      && (bundle.Ok? ==> bundle.value.entry == entry.value && OfflineReasons(env.sha, env.key, bundle.value) == [])
  {
    hide MerkleRoot, Sealed, Leaves, InclusionPath, MI.Ascend, PickCheckpoint, SignatureReasons;
    FirstEntryIsRow(rows, entryId);
    if FirstEntry(rows, entryId).Some? {
      var entry := FirstEntry(rows, entryId).value;
      PickExactly(checkpoints, entry.doc.chainSeq, checkpointId);
      var picked := PickCheckpoint(checkpoints, entry.doc.chainSeq, checkpointId);
      if picked.Ok? {
        BundleFor(env, rows, checkpoints, entry, picked.value);
      }
    }
  }

  lemma BundleFor(env: Env, rows: seq<Entry>, checkpoints: seq<Checkpoint>, entry: Entry, checkpoint: Checkpoint)
    requires Sealed(env.sha, rows) && CheckpointsSealed(env, rows, checkpoints)
    requires entry in rows && checkpoint in checkpoints && checkpoint.doc.coveredUpToSeq >= entry.doc.chainSeq
    requires checkpoint.doc.merkleRoot.Some?
    ensures checkpoint.doc.coveredUpToSeq <= |rows|
    ensures var size, index := checkpoint.doc.coveredUpToSeq, entry.doc.chainSeq - 1;
      var leaves := Digests(env.sha, rows)[..size];
      && 0 <= index < size
      && entry.entryHash == Hex(EntryDigest(env.sha, entry)) == Hex(leaves[index])
      && Leaves(rows, size) == Ok(leaves)
      && StoredRoot(env.sha, checkpoint, leaves) == checkpoint.doc.merkleRoot.value == Hex(MerkleRoot(env.sha, leaves))
      && BuildInclusionProof(env.sha, leaves, index).Ok?
      && MI.InclusionVerdict(env.sha, Hex(leaves[index]), index, size,
                             Texts(BuildInclusionProof(env.sha, leaves, index).value),
                             Hex(MerkleRoot(env.sha, leaves))).valid
      && (env.key.Some? && checkpoint.asymmetricSignature != "" ==>
            CheckpointOffline(env.sha, env.key.value, checkpoint) == [])
  {
    hide MerkleRoot, InclusionPath, MI.InclusionVerdict, Leaves, CheckpointOffline, SignedWith;
    var i :| 0 <= i < |rows| && rows[i] == entry;
    var j :| 0 <= j < |checkpoints| && checkpoints[j] == checkpoint;
    assert SealedAt(env.sha, rows, i) && CheckpointSealedAt(env, rows, checkpoints, j);
    var size := checkpoint.doc.coveredUpToSeq;
    SealedLeaves(env.sha, rows, size);
    MI.InclusionComplete(env.sha, Digests(env.sha, rows)[..size], i);
    if env.key.Some? {
      CheckpointOfflineExact(env.sha, env.key.value, checkpoint);
    }
  }

  /** The number that a request gives, or leaves out for the default, is that of index `i`. */
  predicate Asks(number: Option<nat>, default: nat, i: nat) {
    number == Some(i + 1) || (number == None && i == default)
  }

  /** The bundle between the first `m` and the first `n` entries of a sealed log. */
  ghost predicate BundleOf(sha: Sha, rows: seq<Entry>, m: nat, n: nat, bundle: ConsistencyBundle)
    requires m <= n <= |rows|
  {
    var leaves := Digests(sha, rows)[..n];
    && bundle.firstSize == m && bundle.secondSize == n
    && bundle.firstRoot == Hex(MerkleRoot(sha, leaves[..m])) && bundle.secondRoot == Hex(MerkleRoot(sha, leaves))
    && BuildConsistencyProof(sha, leaves, m).Ok?
    && bundle.path == Texts(BuildConsistencyProof(sha, leaves, m).value)
    && bundle.report.valid
  }

  /** Between two checkpoints, asked for by number or being the first and the last one, a
      bundle is built, and verifies, exactly when the second one covers at least as much as
      the first. */
  lemma SealedConsistencyBundle(
    env: Env, rows: seq<Entry>, checkpoints: seq<Checkpoint>, from: Option<nat>, to: Option<nat>, i: nat, j: nat)
    requires Sealed(env.sha, rows) && CheckpointsSealed(env, rows, checkpoints)
    requires i <= j < |checkpoints| && Asks(from, 0, i) && Asks(to, |checkpoints| - 1, j)
    requires forall k :: k in checkpoints ==> k.doc.merkleRoot.Some?
    ensures checkpoints[j].doc.coveredUpToSeq <= |rows|
    ensures var bundle := BuildConsistencyBundle(env.sha, rows, checkpoints, from, to);
      var m, n := checkpoints[i].doc.coveredUpToSeq, checkpoints[j].doc.coveredUpToSeq;
      if m <= n then bundle.Ok? && BundleOf(env.sha, rows, m, n, bundle.value)
      else bundle == Err(ProofRefused(InvalidConsistencyBounds))
  {
    hide MerkleRoot, Leaves, BuildConsistencyProof, MC.ConsistencyReport;
    var first, second := checkpoints[i], checkpoints[j];
    var m, n := first.doc.coveredUpToSeq, second.doc.coveredUpToSeq;
    assert CheckpointSealedAt(env, rows, checkpoints, i) && CheckpointSealedAt(env, rows, checkpoints, j);
    NumberedIsIndexed(env, rows, checkpoints, i);
    NumberedIsIndexed(env, rows, checkpoints, j);
    SealedLeaves(env.sha, rows, n);
    var leaves := Digests(env.sha, rows)[..n];
    MC.ConsistencyComplete(env.sha, leaves, m);
    ConsistencyBounds(env.sha, leaves, m);
    if m <= n {
      assert leaves[..m] == Digests(env.sha, rows)[..m];
    }
  }

  lemma ConsistencyBounds(sha: Sha, leaves: seq<Digest>, first: nat)
    ensures first > |leaves| ==> BuildConsistencyProof(sha, leaves, first) == Err(InvalidConsistencyBounds)
  {
  }

  lemma {:induction false} NumberedIsIndexed(env: Env, rows: seq<Entry>, checkpoints: seq<Checkpoint>, i: nat)
    requires CheckpointsSealed(env, rows, checkpoints) && i < |checkpoints|
    ensures CheckpointNumbered(checkpoints, i + 1) == Some(checkpoints[i])
  {
    hide Anchors, Authentic;
    var n := |checkpoints| - 1;
    assert CheckpointSealedAt(env, rows, checkpoints, n);
    if i < n {
      forall j | 0 <= j < n ensures CheckpointSealedAt(env, rows, checkpoints[..n], j) {
        assert CheckpointSealedAt(env, rows, checkpoints, j);
      }
      NumberedIsIndexed(env, rows, checkpoints[..n], i);
    }
  }

  // ---------- bundles over any log ----------

  /** The leaves are, in order, the hashes of the rows numbered up to `size`. */
  lemma {:induction false} LeafTextsExact(rows: seq<Entry>, size: nat) returns (indices: seq<nat>)
    ensures Indices(indices, 0, |rows|) && |indices| == |LeafTexts(rows, size)|
    ensures forall i :: 0 <= i < |indices| ==> LeafTexts(rows, size)[i] == rows[indices[i]].entryHash
    ensures forall k: nat :: k in indices <==> k < |rows| && rows[k].doc.chainSeq <= size
  {
    hide LeafTexts;
    LeafTextsOfNone(size);
    indices := [];
    for n := 0 to |rows|
      invariant Indices(indices, 0, n) && |indices| == |LeafTexts(rows[..n], size)|
      invariant forall i :: 0 <= i < |indices| ==> LeafTexts(rows[..n], size)[i] == rows[indices[i]].entryHash
      invariant forall k: nat :: k in indices <==> k < n && rows[k].doc.chainSeq <= size
    {
      LeafTextsAppend(rows[..n], rows[n], size);
      assert rows[..n + 1] == rows[..n] + [rows[n]];
      if rows[n].doc.chainSeq <= size {
        indices := indices + [n];
      }
    }
    assert rows[..|rows|] == rows;
  }

  lemma LeafTextsOfNone(size: nat)
    ensures LeafTexts([], size) == []
  {
  }

  lemma {:induction false} LeafTextsAppend(rows: seq<Entry>, last: Entry, size: nat)
    ensures LeafTexts(rows + [last], size)
         == LeafTexts(rows, size) + if last.doc.chainSeq <= size then [last.entryHash] else []
  {
    if rows != [] {
      LeafTextsAppend(rows[1..], last, size);
      assert (rows + [last])[1..] == rows[1..] + [last];
    } else {
      assert (rows + [last])[1..] == [];
    }
  }

  /** The bundle of an entry under a checkpoint over some leaves. */
  ghost predicate BundleFrom(
    sha: Sha, entry: Entry, k: Checkpoint, leaves: seq<Digest>, result: Result<InclusionBundle, BundleError>)
  {
    var index := entry.doc.chainSeq - 1;
    if !(0 <= index < |leaves|) then
      result.Err? && result.error.ProofRefused?
    else
      && result.Ok? && result.value.entry == entry && result.value.entryHash == entry.entryHash
      && result.value.leafIndex == index && result.value.treeSize == |leaves|
      && result.value.auditPath == Texts(InclusionPath(sha, leaves, index))
      && result.value.merkleRoot ==
         (if k.doc.merkleRoot.Some? then k.doc.merkleRoot.value else Hex(MerkleRoot(sha, leaves)))
      && result.value.checkpoint == k.(doc := k.doc.(merkleRoot := Some(result.value.merkleRoot)))
  }

  /** Why a bundle is refused, and what it contains otherwise, for rows and checkpoints in
      whatever state they are, as long as the stored hashes are digests. */
  lemma InclusionBundleCases(
    sha: Sha, rows: seq<Entry>, checkpoints: seq<Checkpoint>, entryId: string, checkpointId: Option<string>)
    ensures var result := BuildInclusionBundle(sha, rows, checkpoints, entryId, checkpointId);
      if forall e :: e in rows ==> e.doc.id != entryId then
        result == Err(EntryNotFound)
      else
        exists entry :: entry in rows && entry.doc.id == entryId &&
          var picked := PickCheckpoint(checkpoints, entry.doc.chainSeq, checkpointId);
          if picked.Err? then
            result == Err(picked.error)
          else
            var texts := LeafTexts(rows, picked.value.doc.coveredUpToSeq);
            if |texts| != picked.value.doc.coveredUpToSeq then
              result == Err(SequenceDiscontinuity)
            else
              forall leaves :: texts == Texts(leaves) ==> BundleFrom(sha, entry, picked.value, leaves, result)
  {
    hide MerkleRoot, InclusionPath, PickCheckpoint, LeafTexts, Leaves, BundleFrom, StoredRoot, BuildInclusionProof;
    FirstEntryIsRow(rows, entryId);
    if FirstEntry(rows, entryId).Some? {
      var entry := FirstEntry(rows, entryId).value;
      var picked := PickCheckpoint(checkpoints, entry.doc.chainSeq, checkpointId);
      if picked.Ok? {
        LeavesOf(rows, picked.value.doc.coveredUpToSeq);
        forall leaves | LeafTexts(rows, picked.value.doc.coveredUpToSeq) == Texts(leaves)
                        && |leaves| == picked.value.doc.coveredUpToSeq
          ensures BundleFrom(sha, entry, picked.value, leaves,
                             BuildInclusionBundle(sha, rows, checkpoints, entryId, checkpointId))
        {
          BundleOver(sha, rows, checkpoints, entryId, checkpointId, entry, picked.value, leaves);
        }
      }
    }
  }

  lemma BundleOver(
    sha: Sha, rows: seq<Entry>, checkpoints: seq<Checkpoint>, entryId: string, checkpointId: Option<string>,
    entry: Entry, k: Checkpoint, leaves: seq<Digest>)
    requires FirstEntry(rows, entryId) == Some(entry)
    requires PickCheckpoint(checkpoints, entry.doc.chainSeq, checkpointId) == Ok(k)
    requires Leaves(rows, k.doc.coveredUpToSeq) == Ok(leaves) && |leaves| == k.doc.coveredUpToSeq
    ensures BundleFrom(sha, entry, k, leaves, BuildInclusionBundle(sha, rows, checkpoints, entryId, checkpointId))
  {
    hide MerkleRoot, InclusionPath, PickCheckpoint, LeafTexts, Leaves, FirstEntry;
  }

  lemma LeavesOf(rows: seq<Entry>, size: nat)
    ensures |LeafTexts(rows, size)| != size ==> Leaves(rows, size) == Err(SequenceDiscontinuity)
    ensures forall leaves :: |LeafTexts(rows, size)| == size && LeafTexts(rows, size) == Texts(leaves) ==>
              Leaves(rows, size) == Ok(leaves)
  {
    hide LeafTexts, Decode;
    forall leaves | LeafTexts(rows, size) == Texts(leaves) ensures Decode(LeafTexts(rows, size)) == Some(leaves) {
      DecodeTexts(leaves);
    }
  }

  lemma {:induction false} NumberedExact(checkpoints: seq<Checkpoint>, number: nat)
    ensures match CheckpointNumbered(checkpoints, number)
      case None => forall k :: k in checkpoints ==> k.doc.checkpointSeq != number
      case Some(k) => k in checkpoints && k.doc.checkpointSeq == number
  {
    if checkpoints != [] {
      NumberedExact(checkpoints[..|checkpoints| - 1], number);
      assert checkpoints == checkpoints[..|checkpoints| - 1] + [checkpoints[|checkpoints| - 1]];
    }
  }

  /** The bundle between two checkpoints, whatever they say of whatever rows, as long as the
      stored hashes are digests. */
  lemma BetweenCases(sha: Sha, rows: seq<Entry>, first: Checkpoint, second: Checkpoint)
    ensures var result, texts := BundleBetween(sha, rows, first, second), LeafTexts(rows, second.doc.coveredUpToSeq);
      var m, n := first.doc.coveredUpToSeq, second.doc.coveredUpToSeq;
      if |texts| != n then
        result == Err(SequenceDiscontinuity)
      else
        forall leaves :: texts == Texts(leaves) ==>
          if m > n then
            result == Err(ProofRefused(InvalidConsistencyBounds))
          else
            var roots := (
              if first.doc.merkleRoot.Some? then first.doc.merkleRoot.value else Hex(MerkleRoot(sha, leaves[..m])),
              if second.doc.merkleRoot.Some? then second.doc.merkleRoot.value else Hex(MerkleRoot(sha, leaves)));
            && BuildConsistencyProof(sha, leaves, m).Ok?
            && var path := Texts(BuildConsistencyProof(sha, leaves, m).value);
            result == Ok(ConsistencyBundle(m, n, roots.0, roots.1, path,
                                           MC.ConsistencyReport(sha, m, n, roots.0, roots.1, path)))
  {
    hide MerkleRoot, Subproof, MC.ConsistencyReport, LeafTexts, Leaves;
    LeavesOf(rows, second.doc.coveredUpToSeq);
  }

  lemma BetweenErrors(sha: Sha, rows: seq<Entry>, first: Checkpoint, second: Checkpoint)
    ensures var result := BundleBetween(sha, rows, first, second);
      result.Err? ==> result.error in {SequenceDiscontinuity, MalformedHash} || result.error.ProofRefused?
  {
    hide LeafTexts, MC.ConsistencyReport, Decode;
  }

  /** Why a consistency bundle is refused, for rows and checkpoints in whatever state. */
  lemma ConsistencyBundleCases(
    sha: Sha, rows: seq<Entry>, checkpoints: seq<Checkpoint>, from: Option<nat>, to: Option<nat>)
    ensures var result := BuildConsistencyBundle(sha, rows, checkpoints, from, to);
      var missing := (number: Option<nat>) =>
        number.Some? && forall k :: k in checkpoints ==> k.doc.checkpointSeq != number.value;
      && (result == Err(NoCheckpointsFound) <==> checkpoints == [])
      && (result == Err(CheckpointNotFound) <==> checkpoints != [] && (missing(from) || missing(to)))
      && (result == Err(InvalidCheckpointOrder) <==>
            && checkpoints != [] && !missing(from) && !missing(to)
            && (if from.Some? then from.value else checkpoints[0].doc.checkpointSeq) >
               (if to.Some? then to.value else checkpoints[|checkpoints| - 1].doc.checkpointSeq))
  {
    hide BundleBetween;
    forall first, second ensures var result := BundleBetween(sha, rows, first, second);
      result.Err? ==> result.error in {SequenceDiscontinuity, MalformedHash} || result.error.ProofRefused?
    {
      BetweenErrors(sha, rows, first, second);
    }
    if from.Some? {
      NumberedExact(checkpoints, from.value);
    }
    if to.Some? {
      NumberedExact(checkpoints, to.value);
    }
  }

  // ---------- what a verified bundle proves ----------

  /** Everything hashed for a log's first `covered` entries and for the check of a bundle. */
  function OfflineInputs(sha: Sha, bundle: InclusionBundle, rows: seq<Entry>, covered: nat): set<Preimage>
    requires covered <= |rows|
  {
    RootInputs(sha, Digests(sha, rows)[..covered]) + EntryInputs(rows) + {AuditJson(bundle.entry.doc)}
    + MI.VerificationInputs(
        sha, Hex(EntryDigest(sha, bundle.entry)), bundle.leafIndex, bundle.treeSize, bundle.auditPath)
  }

  /** A bundle from whatever source that passes the offline check against the root of the
      first `covered` entries of a sealed log shows one of these entries, field by field,
      whatever tree size and index it claims; or two inputs hashed on the way collide. */
  lemma OfflineBinding(sha: Sha, key: Option<PublicKey>, bundle: InclusionBundle, rows: seq<Entry>, covered: nat)
    requires Sealed(sha, rows) && covered <= |rows|
    requires OfflineReasons(sha, key, bundle) == []
    requires ExpectedRoot(bundle) == Hex(MerkleRoot(sha, Digests(sha, rows)[..covered]))
    ensures var number := bundle.entry.doc.chainSeq;
      || (1 <= number <= covered && bundle.entry.doc == rows[number - 1].doc
            && ClaimedHash(bundle) == rows[number - 1].entryHash)
      || Collides(sha, OfflineInputs(sha, bundle, rows, covered))
  {
    hide MerkleRoot, RootInputs, MI.VerificationInputs, MI.InclusionVerdict, OfflineReasons, Collides;
    var inputs := OfflineInputs(sha, bundle, rows, covered);
    OfflineExact(sha, key, bundle);
    if !Collides(sha, inputs) {
      var position := MI.InclusionFindsLeaf(sha, Digests(sha, rows)[..covered], EntryDigest(sha, bundle.entry),
        bundle.leafIndex, bundle.treeSize, bundle.auditPath, inputs);
      var row := rows[position];
      assert SealedAt(sha, rows, position) && row in rows;
      NoCollision(sha, inputs, AuditJson(bundle.entry.doc), AuditJson(row.doc));
    }
  }

  /** The index that such a bundle claims is the entry's exactly when it is one less than
      the number sealed into the entry; and it is whenever the claimed tree size is the
      number of entries behind the root. */
  lemma OfflineIndex(sha: Sha, key: Option<PublicKey>, bundle: InclusionBundle, rows: seq<Entry>, covered: nat)
    requires Sealed(sha, rows) && covered <= |rows|
    requires OfflineReasons(sha, key, bundle) == []
    requires ExpectedRoot(bundle) == Hex(MerkleRoot(sha, Digests(sha, rows)[..covered]))
    requires !Collides(sha, OfflineInputs(sha, bundle, rows, covered))
    ensures 0 <= bundle.leafIndex < |rows| && rows[bundle.leafIndex].doc == bundle.entry.doc
       <==> bundle.leafIndex == bundle.entry.doc.chainSeq - 1
    ensures bundle.treeSize == covered ==> bundle.leafIndex == bundle.entry.doc.chainSeq - 1
  {
    hide MerkleRoot, RootInputs, MI.VerificationInputs, MI.InclusionVerdict, OfflineReasons, Collides, InclusionPath;
    OfflineBinding(sha, key, bundle, rows, covered);
    if 0 <= bundle.leafIndex < |rows| {
      assert SealedAt(sha, rows, bundle.leafIndex);
    }
    if bundle.treeSize == covered {
      OfflineExact(sha, key, bundle);
      var leaves, leaf := Digests(sha, rows)[..covered], Hex(EntryDigest(sha, bundle.entry));
      var inputs := OfflineInputs(sha, bundle, rows, covered);
      MI.InclusionSound(sha, leaves, leaf, bundle.leafIndex, bundle.auditPath);
      var checked := MI.VerificationInputs(sha, leaf, bundle.leafIndex, covered, bundle.auditPath);
      MoreInputs(sha, RootInputs(sha, leaves) + checked, inputs);
      var row := rows[bundle.leafIndex];
      assert SealedAt(sha, rows, bundle.leafIndex) && row in rows;
      NoCollision(sha, inputs, AuditJson(bundle.entry.doc), AuditJson(row.doc));
    }
  }

  /** Otherwise it can be wrong: with a genuine checkpoint of three entries, the third one
      passes as number two of two. */
  lemma WrongIndexPasses(sha: Sha, key: Option<PublicKey>, rows: seq<Entry>, checkpoint: Checkpoint)
    requires Sealed(sha, rows) && |rows| == 3
    requires checkpoint.doc.merkleRoot == Some(Hex(MerkleRoot(sha, Digests(sha, rows))))
    requires key.Some? && checkpoint.asymmetricSignature != "" ==> CheckpointOffline(sha, key.value, checkpoint) == []
    ensures var sibling := Hex(MerkleRoot(sha, Digests(sha, rows)[..2]));
      var root := checkpoint.doc.merkleRoot.value;
      var bundle := InclusionBundle(rows[2], rows[2].entryHash, 1, 2, root, [sibling], checkpoint);
      OfflineReasons(sha, key, bundle) == []
  {
    hide MerkleRoot, MI.InclusionVerdict, CheckpointOffline;
    var d := Digests(sha, rows);
    assert SealedAt(sha, rows, 2);
    assert d == [d[0], d[1], d[2]] && d[..2] == [d[0], d[1]];
    MI.WrongIndexAccepted(sha, d[0], d[1], d[2]);
  }

  /** Over the root that a signed checkpoint document names, the signature is what a bundle
      binds to: if the document hashes like one that anchors a sealed log, it is that one and
      the bundle shows one of the entries that it covers; or two inputs collide. */
  lemma SignedBundleBinds(sha: Sha, key: PublicKey, bundle: InclusionBundle, rows: seq<Entry>, signed: CheckpointDoc)
    requires Sealed(sha, rows) && Anchors(sha, rows, signed) && signed.merkleRoot.Some?
    requires CheckpointDigest(sha, bundle.checkpoint) == sha(CheckpointJson(signed))
    requires OfflineReasons(sha, Some(key), bundle) == []
    ensures var number, covered := bundle.entry.doc.chainSeq, signed.coveredUpToSeq;
      || (&& bundle.checkpoint.doc == signed && 1 <= number <= covered
          && bundle.entry.doc == rows[number - 1].doc && ClaimedHash(bundle) == rows[number - 1].entryHash)
      || Collides(sha, SignedInputs(sha, bundle, rows, signed))
  {
    hide MerkleRoot, OfflineReasons, OfflineInputs, Sealed, Collides, Digests;
    var inputs := SignedInputs(sha, bundle, rows, signed);
    if !Collides(sha, inputs) {
      NoCollision(sha, inputs, CheckpointJson(signed), CheckpointJson(bundle.checkpoint.doc));
      MoreInputs(sha, OfflineInputs(sha, bundle, rows, signed.coveredUpToSeq), inputs);
      OfflineBinding(sha, Some(key), bundle, rows, signed.coveredUpToSeq);
    }
  }

  function SignedInputs(sha: Sha, bundle: InclusionBundle, rows: seq<Entry>, signed: CheckpointDoc): set<Preimage>
    requires signed.coveredUpToSeq <= |rows|
  {
    OfflineInputs(sha, bundle, rows, signed.coveredUpToSeq)
    + {CheckpointJson(signed), CheckpointJson(bundle.checkpoint.doc)}
  }

  lemma MoreInputs(sha: Sha, some: set<Preimage>, more: set<Preimage>)
    requires some <= more && !Collides(sha, more)
    ensures !Collides(sha, some)
  {
  }

  // ---------- bundles of a running system ----------

  lemma {:induction false} MintedHaveRoots(env: Env, steps: seq<Step>)
    ensures forall k :: k in Execute(env, steps).checkpoints ==> k.doc.merkleRoot.Some?
  {
    hide ReadOutcome, StampSigns, AlreadyAnchored, Latest, TenantCheckpoints, Seal;
    if steps != [] {
      MintedHaveRoots(env, steps[..|steps| - 1]);
    }
  }

  lemma {:induction false} TenantCheckpointsAreRows(checkpoints: seq<Checkpoint>, organization: string)
    ensures forall k :: k in TenantCheckpoints(checkpoints, organization) ==> k in checkpoints
  {
    if checkpoints != [] {
      TenantCheckpointsAreRows(checkpoints[..|checkpoints| - 1], organization);
    }
  }

  /** Checkpoints of a reachable state, and the rows of the same or a later one: what a
      bundle is built from, whose queries read the checkpoints first. */
  lemma RowsReadLater(env: Env, steps: seq<Step>, later: seq<Step>, organization: string)
    ensures var rows := ScopeRows(Execute(env, steps + later).entries, Some(organization));
      var checkpoints := TenantCheckpoints(Execute(env, steps).checkpoints, organization);
      && Sealed(env.sha, rows) && CheckpointsSealed(env, rows, checkpoints)
      && OrderBy(rows, EntrySeq) == rows && OrderBy(checkpoints, CheckpointSeq) == checkpoints
      && forall k :: k in checkpoints ==> k.doc.merkleRoot.Some?
  {
    hide Execute, ScopeRows, OrderBy, Sealed, CheckpointsSealed, TenantCheckpoints;
    ExecutionsAreGood(env, steps);
    ExecutionsAreGood(env, steps + later);
    RowsGrow(env, steps, later, Some(organization));
    MintedHaveRoots(env, steps);
    TenantCheckpointsAreRows(Execute(env, steps).checkpoints, organization);
    var rows := ScopeRows(Execute(env, steps + later).entries, Some(organization));
    var checkpoints := TenantCheckpoints(Execute(env, steps).checkpoints, organization);
    GrowthKeepsCheckpoints(env, ScopeRows(Execute(env, steps).entries, Some(organization)), rows, checkpoints);
    SealedQueries(env, rows, checkpoints);
  }

  /** In every reachable state, the bundle of any entry that a checkpoint covers
      is built and passes the offline verifier, also if rows are added while it is built. */
  lemma InclusionBundlesVerify(
    env: Env, steps: seq<Step>, later: seq<Step>, organization: string, entryId: string, checkpointId: Option<string>)
    ensures var rows := OrderBy(ScopeRows(Execute(env, steps + later).entries, Some(organization)), EntrySeq);
      var checkpoints := OrderBy(TenantCheckpoints(Execute(env, steps).checkpoints, organization), CheckpointSeq);
      var entry := FirstEntry(rows, entryId);
      var bundle := BuildInclusionBundle(env.sha, rows, checkpoints, entryId, checkpointId);
      && (bundle.Ok? <==> entry.Some? && PickCheckpoint(checkpoints, entry.value.doc.chainSeq, checkpointId).Ok?)
      && (bundle.Ok? ==> bundle.value.entry == entry.value && OfflineReasons(env.sha, env.key, bundle.value) == [])
  {
    hide BuildInclusionBundle, OfflineReasons, PickCheckpoint, Execute, ScopeRows, TenantCheckpoints, OrderBy;
    RowsReadLater(env, steps, later, organization);
    var rows := ScopeRows(Execute(env, steps + later).entries, Some(organization));
    var checkpoints := TenantCheckpoints(Execute(env, steps).checkpoints, organization);
    SealedInclusionBundle(env, rows, checkpoints, entryId, checkpointId);
  }

  lemma {:induction false} CheckpointOfTenant(checkpoints: seq<Checkpoint>, k: Checkpoint)
    requires k in checkpoints
    ensures k in TenantCheckpoints(checkpoints, k.doc.organization)
  {
    var n := |checkpoints| - 1;
    if checkpoints[n] != k {
      CheckpointOfTenant(checkpoints[..n], k);
    }
  }

  /** The digests that the key accepts signatures over are those of stored checkpoints. */
  ghost predicate SignsOnlyStored(env: Env, log: Log) {
    env.key.Some? &&
    forall hash, text :: env.key.value.check(hash, text) ==>
      exists k :: k in log.checkpoints && hash == CheckpointDigest(env.sha, k)
  }

  /** With nothing trusted but the public key: if it only accepts signatures over checkpoints
      of the running system, then any signed bundle that passes offline carries one of these
      checkpoints and shows an entry of that tenant that it covers, field by field; or two
      inputs collide.  Who made the bundle does not matter. */
  lemma SignedBundlesBind(env: Env, steps: seq<Step>, bundle: InclusionBundle) returns (k: Checkpoint)
    requires SignsOnlyStored(env, Execute(env, steps))
    requires OfflineReasons(env.sha, env.key, bundle) == [] && bundle.checkpoint.asymmetricSignature != ""
    ensures k in Execute(env, steps).checkpoints
    ensures var rows := ScopeRows(Execute(env, steps).entries, Some(k.doc.organization));
      var number, covered := bundle.entry.doc.chainSeq, k.doc.coveredUpToSeq;
      && covered <= |rows|
      && (|| (&& bundle.checkpoint.doc == k.doc && 1 <= number <= covered
              && bundle.entry.doc == rows[number - 1].doc && ClaimedHash(bundle) == rows[number - 1].entryHash)
          || Collides(env.sha, SignedInputs(env.sha, bundle, rows, k.doc)))
  {
    hide MerkleRoot, OfflineReasons, Execute, ScopeRows, TenantCheckpoints, Sealed, Collides, SignedInputs, Digests;
    var log, shown := Execute(env, steps), bundle.checkpoint;
    OfflineExact(env.sha, env.key, bundle);
    assert env.key.value.check(CheckpointDigest(env.sha, shown), shown.asymmetricSignature);
    k :| k in log.checkpoints && CheckpointDigest(env.sha, shown) == CheckpointDigest(env.sha, k);
    RowsReadLater(env, steps, [], k.doc.organization);
    assert steps + [] == steps;
    CheckpointOfTenant(log.checkpoints, k);
    var rows, checkpoints :=
      ScopeRows(log.entries, Some(k.doc.organization)), TenantCheckpoints(log.checkpoints, k.doc.organization);
    var j :| 0 <= j < |checkpoints| && checkpoints[j] == k;
    assert CheckpointSealedAt(env, rows, checkpoints, j);
    SignedBundleBinds(env.sha, env.key.value, bundle, rows, k.doc);
  }

  /** In every reachable state, for checkpoints number `i + 1` and `j + 1` with
      `i <= j`: the consistency bundle is built and verifies if and only if
      coverage did not shrink from one to the other, also if rows are added meanwhile. */
  lemma ConsistencyBundlesVerify(
    env: Env, steps: seq<Step>, later: seq<Step>, organization: string, from: Option<nat>, to: Option<nat>, i: nat,
    j: nat)
    requires i <= j < |TenantCheckpoints(Execute(env, steps).checkpoints, organization)|
    requires Asks(from, 0, i) && Asks(to, |TenantCheckpoints(Execute(env, steps).checkpoints, organization)| - 1, j)
    ensures var rows := OrderBy(ScopeRows(Execute(env, steps + later).entries, Some(organization)), EntrySeq);
      var checkpoints := OrderBy(TenantCheckpoints(Execute(env, steps).checkpoints, organization), CheckpointSeq);
      var bundle := BuildConsistencyBundle(env.sha, rows, checkpoints, from, to);
      |checkpoints| > j && checkpoints[j].doc.coveredUpToSeq <= |rows| &&
      var m, n := checkpoints[i].doc.coveredUpToSeq, checkpoints[j].doc.coveredUpToSeq;
      if m <= n then bundle.Ok? && BundleOf(env.sha, rows, m, n, bundle.value)
      else bundle == Err(ProofRefused(InvalidConsistencyBounds))
  {
    hide BuildConsistencyBundle, Execute, ScopeRows, TenantCheckpoints, OrderBy;
    RowsReadLater(env, steps, later, organization);
    var rows := ScopeRows(Execute(env, steps + later).entries, Some(organization));
    var checkpoints := TenantCheckpoints(Execute(env, steps).checkpoints, organization);
    SealedConsistencyBundle(env, rows, checkpoints, from, to, i, j);
  }
}
