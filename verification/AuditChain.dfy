/** The tenant audit chain and its checkpoints: what
    `verify_organization_audit_chain` of apps/core/audit_chain.py reports, and
    exactly which logs it accepts. */
module AuditChain {
  import opened Hashing
  import opened MerkleTree
  import opened Sequences
  import opened Wrappers

  /** The hash before the first entry: 64 zeros. */
  const GENESIS: HexText := Hex([
    0, 0, 0, 0, 0, 0, 0, 0, 0, 0, 0, 0, 0, 0, 0, 0,
    0, 0, 0, 0, 0, 0, 0, 0, 0, 0, 0, 0, 0, 0, 0, 0])

  /** A row of the audit log. */
  datatype Entry = Entry(doc: AuditDoc, entryHash: HexText)

  datatype Algorithm = HmacSha256 | Ed25519 | KmsEcdsaSha256 | OtherAlgorithm(name: string)

  /** A row of the checkpoint table.  Where a checkpoint was archived is not part
      of the model. */
  datatype Checkpoint = Checkpoint(
    doc: CheckpointDoc,
    checkpointHash: HexText,
    signature: HexText,
    algorithm: Algorithm,
    fingerprint: string,
    asymmetricSignature: string)

  /** The public key in force: `check` says which signatures it accepts. */
  datatype PublicKey = PublicKey(algorithm: Algorithm, fingerprint: string, check: (Digest, string) -> bool)

  datatype Env = Env(sha: Sha, mac: Digest -> HexText, key: Option<PublicKey>)

  datatype EntryReason = SequenceGap | PrevHashMismatch | EntryHashMismatch

  datatype EntryViolation = EntryViolation(id: string, chainSeq: nat, expectedSeq: nat, reasons: seq<EntryReason>)

  datatype CheckpointReason =
    | CheckpointSequenceGap
    | CheckpointPrevHashMismatch
    | CheckpointHashMismatch
    | CheckpointSignatureMismatch
    | PublicKeyUnavailable
    | PublicKeyMismatch
    | AsymmetricSignatureMismatch
    | AnchorDivergence
    | CheckpointMerkleRootMismatch

  datatype CheckpointViolation = CheckpointViolation(
    id: string, checkpointSeq: nat, coveredUpToSeq: nat, reasons: seq<CheckpointReason>)

  datatype Report = Report(
    organization: string,
    valid: bool,
    verifiedEntries: nat,
    headChainSeq: nat,
    headHash: HexText,
    merkleRoot: Digest,
    manifestDigest: Digest,
    violations: seq<EntryViolation>,
    checkpointViolations: seq<CheckpointViolation>,
    checkpointsVerified: nat,
    latestCheckpointSeq: Option<nat>,
    firstCorruptedSeq: Option<nat>,
    firstCorruptedId: Option<string>)

  /** A stored hash of 64 characters that is no digest makes the Merkle root
      computation raise. */
  datatype VerifyError = MalformedDigest

  function EntryDigest(sha: Sha, entry: Entry): Digest {
    sha(AuditJson(entry.doc))
  }

  function CheckpointDigest(sha: Sha, checkpoint: Checkpoint): Digest {
    sha(CheckpointJson(checkpoint.doc))
  }

  // ---------- entries ----------

  function EntryReasons(sha: Sha, entry: Entry, expectedSeq: nat, expectedPrev: HexText): seq<EntryReason> {
    (if entry.doc.chainSeq != expectedSeq then [SequenceGap] else [])
    + (if entry.doc.prevHash != expectedPrev then [PrevHashMismatch] else [])
    + (if entry.entryHash != Hex(EntryDigest(sha, entry)) then [EntryHashMismatch] else [])
  }

  /** After a broken entry the scan resumes from what that entry says. */
  function EntryViolations(
    sha: Sha, entries: seq<Entry>, expectedSeq: nat, expectedPrev: HexText): seq<EntryViolation>
  {
    if entries == [] then
      []
    else
      EntryFindings(sha, entries[0], expectedSeq, expectedPrev)
      + EntryViolations(sha, entries[1..], entries[0].doc.chainSeq + 1, entries[0].entryHash)
  }

  function EntryFindings(sha: Sha, entry: Entry, expectedSeq: nat, expectedPrev: HexText): seq<EntryViolation> {
    var reasons := EntryReasons(sha, entry, expectedSeq, expectedPrev);
    if reasons == [] then [] else [EntryViolation(entry.doc.id, entry.doc.chainSeq, expectedSeq, reasons)]
  }

  function HashBySeq(entries: seq<Entry>): map<nat, HexText> {
    if entries == [] then
      map[]
    else
      var last := entries[|entries| - 1];
      HashBySeq(entries[..|entries| - 1])[last.doc.chainSeq := last.entryHash]
  }

  function MaxSeq(entries: seq<Entry>): nat {
    if entries == [] then
      0
    else
      var rest := MaxSeq(entries[..|entries| - 1]);
      var seqNo := entries[|entries| - 1].doc.chainSeq;
      if seqNo > rest then seqNo else rest
  }

  function HeadHash(sha: Sha, entries: seq<Entry>): HexText {
    if entries == [] then
      GENESIS
    else
      var last := entries[|entries| - 1];
      if last.entryHash == Other("") then Hex(EntryDigest(sha, last)) else last.entryHash
  }

  // ---------- Merkle roots over stored hashes ----------

  function TextLength(text: HexText): nat {
    if text.Hex? then 64 else |text.raw|
  }

  /** The stored hashes for the sequence numbers from `low` up to `high`. */
  function Collect(hashes: map<nat, HexText>, low: nat, high: nat): seq<HexText>
    decreases high - low
  {
    if low >= high then
      []
    else
      (if low in hashes then [hashes[low]] else []) + Collect(hashes, low + 1, high)
  }

  function FullLength(texts: seq<HexText>): seq<HexText> {
    if texts == [] then []
    else (if TextLength(texts[0]) == 64 then [texts[0]] else []) + FullLength(texts[1..])
  }

  function Decode(texts: seq<HexText>): Option<seq<Digest>> {
    if texts == [] then
      Some([])
    else
      match (texts[0], Decode(texts[1..]))
      case (Hex(d), Some(rest)) => Some([d] + rest)
      case _ => None
  }

  function RootOfTexts(sha: Sha, texts: seq<HexText>): Option<Digest> {
    match Decode(texts)
    case None => None
    case Some(digests) => Some(MerkleRoot(sha, digests))
  }

  // ---------- checkpoints ----------

  function SignatureReasons(key: PublicKey, hash: Digest, checkpoint: Checkpoint): seq<CheckpointReason> {
    (if checkpoint.fingerprint != "" && checkpoint.fingerprint != key.fingerprint then [PublicKeyMismatch] else [])
    + (if checkpoint.asymmetricSignature == "" then
         [AsymmetricSignatureMismatch]
       else if checkpoint.algorithm in {Ed25519, KmsEcdsaSha256} then
         if checkpoint.algorithm != key.algorithm then [PublicKeyMismatch]
         else if key.check(hash, checkpoint.asymmetricSignature) then []
         else [AsymmetricSignatureMismatch]
       else
         [AsymmetricSignatureMismatch])
  }

  function AsymmetricReasons(env: Env, checkpoint: Checkpoint): seq<CheckpointReason> {
    if checkpoint.algorithm == HmacSha256 && checkpoint.asymmetricSignature == "" then []
    else if env.key.None? then [PublicKeyUnavailable]
    else SignatureReasons(env.key.value, CheckpointDigest(env.sha, checkpoint), checkpoint)
  }

  function AnchorReasons(hashes: map<nat, HexText>, doc: CheckpointDoc): seq<CheckpointReason> {
    var c := doc.coveredUpToSeq;
    if c > 0 && (c !in hashes || hashes[c] != doc.headHash) then [AnchorDivergence] else []
  }

  predicate LeavesComplete(texts: seq<HexText>, covered: nat) {
    |texts| == covered && forall t :: t in texts ==> TextLength(t) == 64
  }

  /** Every covered hash is there with full length, but one is not a digest. */
  predicate MerkleRaises(hashes: map<nat, HexText>, doc: CheckpointDoc) {
    var texts := Collect(hashes, 1, doc.coveredUpToSeq + 1);
    doc.merkleRoot.Some? && LeavesComplete(texts, doc.coveredUpToSeq) && Decode(texts).None?
  }

  function MerkleReasons(sha: Sha, hashes: map<nat, HexText>, doc: CheckpointDoc): seq<CheckpointReason>
    requires !MerkleRaises(hashes, doc)
  {
    var texts := Collect(hashes, 1, doc.coveredUpToSeq + 1);
    if doc.merkleRoot.None? then
      []
    else if LeavesComplete(texts, doc.coveredUpToSeq) && doc.merkleRoot.value == Hex(RootOfTexts(sha, texts).value) then
      []
    else
      [CheckpointMerkleRootMismatch]
  }

  function LinkReasons(env: Env, checkpoint: Checkpoint, expectedSeq: nat, expectedPrev: HexText)
    : seq<CheckpointReason>
  {
    var doc, hash := checkpoint.doc, CheckpointDigest(env.sha, checkpoint);
    (if doc.checkpointSeq != expectedSeq then [CheckpointSequenceGap] else [])
    + (if doc.prevCheckpointHash != expectedPrev then [CheckpointPrevHashMismatch] else [])
    + (if checkpoint.checkpointHash != Hex(hash) then [CheckpointHashMismatch] else [])
    + (if checkpoint.signature != env.mac(hash) then [CheckpointSignatureMismatch] else [])
  }

  function CheckpointReasons(
    env: Env, hashes: map<nat, HexText>, checkpoint: Checkpoint, expectedSeq: nat, expectedPrev: HexText)
    : seq<CheckpointReason>
    requires !MerkleRaises(hashes, checkpoint.doc)
  {
    LinkReasons(env, checkpoint, expectedSeq, expectedPrev)
    + AsymmetricReasons(env, checkpoint)
    + AnchorReasons(hashes, checkpoint.doc)
    + MerkleReasons(env.sha, hashes, checkpoint.doc)
  }

  function CheckpointViolations(
    env: Env, hashes: map<nat, HexText>, checkpoints: seq<Checkpoint>, expectedSeq: nat, expectedPrev: HexText)
    : seq<CheckpointViolation>
    requires forall k :: k in checkpoints ==> !MerkleRaises(hashes, k.doc)
  {
    if checkpoints == [] then
      []
    else
      CheckpointFindings(env, hashes, checkpoints[0], expectedSeq, expectedPrev)
      + CheckpointViolations(
          env, hashes, checkpoints[1..], checkpoints[0].doc.checkpointSeq + 1, checkpoints[0].checkpointHash)
  }

  function CheckpointFindings(
    env: Env, hashes: map<nat, HexText>, checkpoint: Checkpoint, expectedSeq: nat, expectedPrev: HexText)
    : seq<CheckpointViolation>
    requires !MerkleRaises(hashes, checkpoint.doc)
  {
    var reasons, doc := CheckpointReasons(env, hashes, checkpoint, expectedSeq, expectedPrev), checkpoint.doc;
    if reasons == [] then [] else [CheckpointViolation(doc.id, doc.checkpointSeq, doc.coveredUpToSeq, reasons)]
  }

  // ---------- the report ----------

  function ManifestDigest(sha: Sha, organization: string, verified: nat, head: HexText, valid: bool): Digest {
    sha(ManifestJson(ManifestDoc(organization, verified, head, valid)))
  }

  function ChainReport(env: Env, organization: string, entries: seq<Entry>, checkpoints: seq<Checkpoint>)
    : Result<Report, VerifyError>
  {
    var hashes := HashBySeq(entries);
    var root := RootOfTexts(env.sha, FullLength(Collect(hashes, 0, MaxSeq(entries) + 1)));
    if root.None? || exists k :: k in checkpoints && MerkleRaises(hashes, k.doc) then
      Err(MalformedDigest)
    else
      var violations := EntryViolations(env.sha, entries, 1, GENESIS);
      var checkpointViolations := CheckpointViolations(env, hashes, checkpoints, 1, GENESIS);
      var valid := violations == [] && checkpointViolations == [];
      var head := HeadHash(env.sha, entries);
      Ok(Report(organization, valid, |entries|, MaxSeq(entries), head, root.value,
                ManifestDigest(env.sha, organization, |entries|, head, valid), violations, checkpointViolations,
                |checkpoints|,
                if checkpoints == [] then None else Some(checkpoints[|checkpoints| - 1].doc.checkpointSeq),
                if violations == [] then None else Some(violations[0].chainSeq),
                if violations == [] then None else Some(violations[0].id)))
  }

  /** The pass over the entries, with running expectations. */
  method ScanEntries(env: Env, entries: seq<Entry>)
    returns (
      violations: seq<EntryViolation>, hashBySeq: map<nat, HexText>, maxChainSeq: nat, headHash: HexText,
      verifiedCount: nat)
    ensures violations == EntryViolations(env.sha, entries, 1, GENESIS)
    ensures hashBySeq == HashBySeq(entries) && maxChainSeq == MaxSeq(entries)
    ensures headHash == HeadHash(env.sha, entries) && verifiedCount == |entries|
  {
    hide EntryFindings;
    violations, hashBySeq := [], map[];
    maxChainSeq, headHash, verifiedCount := 0, GENESIS, 0;
    var expectedSeq: nat, expectedPrev := 1, GENESIS;
    for i := 0 to |entries|
      invariant verifiedCount == i
      invariant violations + EntryViolations(env.sha, entries[i..], expectedSeq, expectedPrev)
             == EntryViolations(env.sha, entries, 1, GENESIS)
      invariant hashBySeq == HashBySeq(entries[..i])
      invariant maxChainSeq == MaxSeq(entries[..i])
      invariant headHash == HeadHash(env.sha, entries[..i])
    {
      var item := entries[i];
      assert entries[..i + 1][..i] == entries[..i] && entries[i..][1..] == entries[i + 1..];
      ConcatAssociative(violations, EntryFindings(env.sha, item, expectedSeq, expectedPrev),
                        EntryViolations(env.sha, entries[i + 1..], item.doc.chainSeq + 1, item.entryHash));
      violations := violations + EntryFindings(env.sha, item, expectedSeq, expectedPrev);
      verifiedCount := verifiedCount + 1;
      hashBySeq := hashBySeq[item.doc.chainSeq := item.entryHash];
      maxChainSeq := if item.doc.chainSeq > maxChainSeq then item.doc.chainSeq else maxChainSeq;
      headHash := if item.entryHash == Other("") then Hex(EntryDigest(env.sha, item)) else item.entryHash;
      expectedPrev := item.entryHash;
      expectedSeq := item.doc.chainSeq + 1;
    }
    assert entries[..|entries|] == entries;
  }

  /** The pass over the checkpoints. */
  method ScanCheckpoints(env: Env, hashBySeq: map<nat, HexText>, checkpoints: seq<Checkpoint>)
    returns (result: Result<seq<CheckpointViolation>, VerifyError>)
    ensures result.Ok? <==> forall k :: k in checkpoints ==> !MerkleRaises(hashBySeq, k.doc)
    ensures result.Ok? ==> result.value == CheckpointViolations(env, hashBySeq, checkpoints, 1, GENESIS)
  {
    hide CheckpointFindings, MerkleRaises;
    var violations: seq<CheckpointViolation> := [];
    var expectedSeq: nat, expectedPrev := 1, GENESIS;
    for i := 0 to |checkpoints|
      invariant forall k :: k in checkpoints[..i] ==> !MerkleRaises(hashBySeq, k.doc)
      invariant (forall k :: k in checkpoints ==> !MerkleRaises(hashBySeq, k.doc)) ==>
                  violations + CheckpointViolations(env, hashBySeq, checkpoints[i..], expectedSeq, expectedPrev)
                  == CheckpointViolations(env, hashBySeq, checkpoints, 1, GENESIS)
    {
      var ckpt := checkpoints[i];
      assert ckpt in checkpoints && checkpoints[i..][1..] == checkpoints[i + 1..];
      if MerkleRaises(hashBySeq, ckpt.doc) {
        return Err(MalformedDigest);
      }
      var findings := CheckpointFindings(env, hashBySeq, ckpt, expectedSeq, expectedPrev);
      if forall k :: k in checkpoints ==> !MerkleRaises(hashBySeq, k.doc) {
        ConcatAssociative(violations, findings,
          CheckpointViolations(
            env, hashBySeq, checkpoints[i + 1..], ckpt.doc.checkpointSeq + 1, ckpt.checkpointHash));
      }
      violations := violations + findings;
      expectedPrev := ckpt.checkpointHash;
      expectedSeq := ckpt.doc.checkpointSeq + 1;
    }
    assert checkpoints[..|checkpoints|] == checkpoints;
    result := Ok(violations);
  }

  method VerifyOrganizationAuditChain(
    env: Env, organization: string, entries: seq<Entry>, checkpoints: seq<Checkpoint>)
    returns (result: Result<Report, VerifyError>)
    ensures result == ChainReport(env, organization, entries, checkpoints)
  {
    hide EntryViolations, CheckpointViolations, HashBySeq, MaxSeq, HeadHash, MerkleRaises, RootOfTexts, Collect,
      FullLength;
    var violations, hashBySeq, maxChainSeq, headHash, verifiedCount := ScanEntries(env, entries);
    var scanned := ScanCheckpoints(env, hashBySeq, checkpoints);
    if scanned.Err? {
      return Err(MalformedDigest);
    }
    var root := RootOfTexts(env.sha, FullLength(Collect(hashBySeq, 0, maxChainSeq + 1)));
    if root.None? {
      return Err(MalformedDigest);
    }
    var chainValid := |violations| == 0 && |scanned.value| == 0;
    var manifestDigest := ManifestDigest(env.sha, organization, verifiedCount, headHash, chainValid);
    var latest := if |checkpoints| > 0 then Some(checkpoints[|checkpoints| - 1].doc.checkpointSeq) else None;
    var corruptedSeq, corruptedId := None, None;
    if |violations| > 0 {
      corruptedSeq, corruptedId := Some(violations[0].chainSeq), Some(violations[0].id);
    }
    result := Ok(Report(organization, chainValid, verifiedCount, maxChainSeq, headHash, root.value, manifestDigest,
                        violations, scanned.value, |checkpoints|, latest, corruptedSeq, corruptedId));
  }

  // ---------- which logs pass ----------

  function PrevHash(entries: seq<Entry>, j: nat): HexText
    requires j <= |entries|
  {
    if j == 0 then GENESIS else entries[j - 1].entryHash
  }

  /** Entry `j` is number `j + 1`, names its predecessor's hash and carries its own. */
  ghost predicate SealedAt(sha: Sha, entries: seq<Entry>, j: nat)
    requires j < |entries|
  {
    && entries[j].doc.chainSeq == j + 1
    && entries[j].doc.prevHash == PrevHash(entries, j)
    && entries[j].entryHash == Hex(EntryDigest(sha, entries[j]))
  }

  ghost predicate Sealed(sha: Sha, entries: seq<Entry>) {
    forall j :: 0 <= j < |entries| ==> SealedAt(sha, entries, j)
  }

  lemma EntryCheckExact(sha: Sha, entries: seq<Entry>, k: nat)
    requires k < |entries|
    ensures EntryFindings(sha, entries[k], k + 1, PrevHash(entries, k)) == [] <==> SealedAt(sha, entries, k)
  {
  }

  lemma {:induction false} NoViolationsFrom(sha: Sha, entries: seq<Entry>, k: nat)
    requires k <= |entries|
    ensures EntryViolations(sha, entries[k..], k + 1, PrevHash(entries, k)) == []
       <==> forall j :: k <= j < |entries| ==> SealedAt(sha, entries, j)
    decreases |entries| - k
  {
    hide EntryFindings;
    if k < |entries| {
      assert entries[k..][1..] == entries[k + 1..];
      EntryCheckExact(sha, entries, k);
      if entries[k].doc.chainSeq == k + 1 {
        NoViolationsFrom(sha, entries, k + 1);
      } else {
        assert !SealedAt(sha, entries, k);
      }
    }
  }

  /** The entry scan is silent exactly on sealed logs. */
  lemma EntryScanExact(sha: Sha, entries: seq<Entry>)
    ensures EntryViolations(sha, entries, 1, GENESIS) == [] <==> Sealed(sha, entries)
  {
    NoViolationsFrom(sha, entries, 0);
    assert entries[0..] == entries;
  }

  /** Entry `j` is the first one that is not sealed. */
  ghost predicate FirstBroken(sha: Sha, entries: seq<Entry>, j: nat)
    requires j < |entries|
  {
    !SealedAt(sha, entries, j) && forall i :: 0 <= i < j ==> SealedAt(sha, entries, i)
  }

  lemma {:induction false} FirstViolationFrom(sha: Sha, entries: seq<Entry>, k: nat) returns (j: nat)
    requires k <= |entries| && forall i :: 0 <= i < k ==> SealedAt(sha, entries, i)
    requires EntryViolations(sha, entries[k..], k + 1, PrevHash(entries, k)) != []
    ensures j < |entries| && FirstBroken(sha, entries, j)
    ensures var first := EntryViolations(sha, entries[k..], k + 1, PrevHash(entries, k))[0];
      first.id == entries[j].doc.id && first.chainSeq == entries[j].doc.chainSeq && first.expectedSeq == j + 1
    decreases |entries| - k
  {
    hide EntryReasons;
    assert entries[k..][1..] == entries[k + 1..];
    EntryCheckExact(sha, entries, k);
    if SealedAt(sha, entries, k) {
      j := FirstViolationFrom(sha, entries, k + 1);
    } else {
      j := k;
    }
  }

  /** The first reported corruption is the first entry of the log that is not sealed. */
  lemma FirstCorruption(env: Env, organization: string, entries: seq<Entry>, checkpoints: seq<Checkpoint>)
    requires ChainReport(env, organization, entries, checkpoints).Ok? && !Sealed(env.sha, entries)
    ensures var report := ChainReport(env, organization, entries, checkpoints).value;
      exists j :: 0 <= j < |entries| && FirstBroken(env.sha, entries, j)
        && report.firstCorruptedSeq == Some(entries[j].doc.chainSeq)
        && report.firstCorruptedId == Some(entries[j].doc.id)
        && report.violations != [] && report.violations[0].expectedSeq == j + 1
  {
    hide HashBySeq, MerkleRaises, Collect, MerkleRoot, FullLength, RootOfTexts, MaxSeq, Sealed, EntryViolations,
      CheckpointViolations, HeadHash;
    EntryScanExact(env.sha, entries);
    assert entries[0..] == entries;
    var j := FirstViolationFrom(env.sha, entries, 0);
  }

  function Digests(sha: Sha, entries: seq<Entry>): (digests: seq<Digest>)
    ensures |digests| == |entries|
    ensures forall i :: 0 <= i < |entries| ==> digests[i] == EntryDigest(sha, entries[i])
  {
    seq(|entries|, i requires 0 <= i < |entries| => EntryDigest(sha, entries[i]))
  }

  /** In a sealed log the table of hashes holds exactly the numbers from one up. */
  lemma {:induction false} SealedHashes(sha: Sha, entries: seq<Entry>)
    requires Sealed(sha, entries)
    ensures forall s: nat :: s in HashBySeq(entries) <==> 1 <= s <= |entries|
    ensures forall s :: 1 <= s <= |entries| ==> HashBySeq(entries)[s] == Hex(EntryDigest(sha, entries[s - 1]))
    ensures MaxSeq(entries) == |entries|
  {
    if entries != [] {
      var n := |entries| - 1;
      assert Sealed(sha, entries[..n]) by {
        forall j | 0 <= j < n ensures SealedAt(sha, entries[..n], j) {
          assert SealedAt(sha, entries, j);
        }
      }
      SealedHashes(sha, entries[..n]);
      assert SealedAt(sha, entries, n);
    }
  }

  lemma {:induction false} CollectRange(sha: Sha, entries: seq<Entry>, low: nat, high: nat)
    requires Sealed(sha, entries) && 1 <= low <= high <= |entries| + 1
    ensures Collect(HashBySeq(entries), low, high) == Texts(Digests(sha, entries))[low - 1..high - 1]
    decreases high - low
  {
    hide HashBySeq;
    if low < high {
      SealedHashes(sha, entries);
      CollectRange(sha, entries, low + 1, high);
      var texts := Texts(Digests(sha, entries));
      assert low in HashBySeq(entries) && HashBySeq(entries)[low] == texts[low - 1];
      assert texts[low - 1..high - 1] == [texts[low - 1]] + texts[low..high - 1];
    }
  }

  lemma {:induction false} CollectMisses(hashes: map<nat, HexText>, low: nat, high: nat)
    requires low <= high
    ensures |Collect(hashes, low, high)| <= high - low
    ensures |Collect(hashes, low, high)| == high - low ==> forall s: nat :: low <= s < high ==> s in hashes
    decreases high - low
  {
    if low < high {
      CollectMisses(hashes, low + 1, high);
    }
  }

  lemma {:induction false} DecodeTexts(digests: seq<Digest>)
    ensures Decode(Texts(digests)) == Some(digests)
    ensures FullLength(Texts(digests)) == Texts(digests)
  {
    if digests != [] {
      assert Texts(digests)[1..] == Texts(digests[1..]);
      DecodeTexts(digests[1..]);
      assert [digests[0]] + digests[1..] == digests;
      assert [Texts(digests)[0]] + Texts(digests)[1..] == Texts(digests);
    }
  }

  /** What a checkpoint must say about a log: it covers a prefix of it and
      anchors that prefix's last hash and Merkle root. */
  ghost predicate Anchors(sha: Sha, entries: seq<Entry>, doc: CheckpointDoc) {
    var c := doc.coveredUpToSeq;
    && c <= |entries|
    && (c > 0 ==> doc.headHash == entries[c - 1].entryHash)
    && (doc.merkleRoot.Some? ==> doc.merkleRoot.value == Hex(MerkleRoot(sha, Digests(sha, entries)[..c])))
  }

  /** The key accepts the signature of checkpoint `k` over the given digest. */
  predicate SignedWith(key: PublicKey, hash: Digest, k: Checkpoint) {
    && k.asymmetricSignature != ""
    && (k.fingerprint == "" || k.fingerprint == key.fingerprint)
    && (k.algorithm == Ed25519 || k.algorithm == KmsEcdsaSha256)
    && k.algorithm == key.algorithm
    && key.check(hash, k.asymmetricSignature)
  }

  /** Checkpoint `k` has a signature that the key in force accepts, or claims none. */
  predicate Authentic(env: Env, k: Checkpoint) {
    || (k.algorithm == HmacSha256 && k.asymmetricSignature == "")
    || (env.key.Some? && SignedWith(env.key.value, CheckpointDigest(env.sha, k), k))
  }

  /** What each finding about an asymmetric signature means, and that there is one whenever
      the key does not accept it. */
  lemma SignatureCheckExact(key: PublicKey, hash: Digest, k: Checkpoint)
    ensures var reasons, other := SignatureReasons(key, hash, k), k.algorithm !in {Ed25519, KmsEcdsaSha256};
      && (reasons == [] <==> SignedWith(key, hash, k))
      && (PublicKeyMismatch in reasons <==>
            || k.fingerprint !in {"", key.fingerprint}
            || (k.asymmetricSignature != "" && !other && k.algorithm != key.algorithm))
      && (AsymmetricSignatureMismatch in reasons <==>
            || k.asymmetricSignature == "" || other
            || (k.algorithm == key.algorithm && !key.check(hash, k.asymmetricSignature)))
      && forall r :: r in reasons ==> r in {PublicKeyMismatch, AsymmetricSignatureMismatch}
  {
  }

  lemma AsymmetricCheckExact(env: Env, k: Checkpoint)
    ensures AsymmetricReasons(env, k) == [] <==> Authentic(env, k)
    ensures PublicKeyUnavailable in AsymmetricReasons(env, k) <==>
              env.key.None? && (k.algorithm != HmacSha256 || k.asymmetricSignature != "")
  {
    hide SignatureReasons, SignedWith;
    if env.key.Some? {
      SignatureCheckExact(env.key.value, CheckpointDigest(env.sha, k), k);
      NotSignedWithout(env.key.value, CheckpointDigest(env.sha, k), k);
    }
  }

  lemma NotSignedWithout(key: PublicKey, hash: Digest, k: Checkpoint)
    ensures k.algorithm == HmacSha256 || k.asymmetricSignature == "" ==> !SignedWith(key, hash, k)
  {
  }

  function PrevCheckpointHash(checkpoints: seq<Checkpoint>, j: nat): HexText
    requires j <= |checkpoints|
  {
    if j == 0 then GENESIS else checkpoints[j - 1].checkpointHash
  }

  /** Checkpoint `j` is number `j + 1`, is linked, hashed and signed, and anchors
      the log. */
  ghost predicate CheckpointSealedAt(env: Env, entries: seq<Entry>, checkpoints: seq<Checkpoint>, j: nat)
    requires j < |checkpoints|
  {
    var k := checkpoints[j];
    && k.doc.checkpointSeq == j + 1
    && k.doc.prevCheckpointHash == PrevCheckpointHash(checkpoints, j)
    && k.checkpointHash == Hex(CheckpointDigest(env.sha, k))
    && k.signature == env.mac(CheckpointDigest(env.sha, k))
    && Authentic(env, k)
    && Anchors(env.sha, entries, k.doc)
  }

  ghost predicate CheckpointsSealed(env: Env, entries: seq<Entry>, checkpoints: seq<Checkpoint>) {
    forall j :: 0 <= j < |checkpoints| ==> CheckpointSealedAt(env, entries, checkpoints, j)
  }

  /** The leaves that a checkpoint of a prefix covers. */
  lemma CoveredLeaves(sha: Sha, entries: seq<Entry>, c: nat)
    requires Sealed(sha, entries) && c <= |entries|
    ensures var texts := Collect(HashBySeq(entries), 1, c + 1);
      LeavesComplete(texts, c) && Decode(texts) == Some(Digests(sha, entries)[..c])
    ensures c > 0 ==> c in HashBySeq(entries) && HashBySeq(entries)[c] == entries[c - 1].entryHash
  {
    hide HashBySeq, Collect, Decode, FullLength;
    var digests := Digests(sha, entries);
    SealedHashes(sha, entries);
    CollectRange(sha, entries, 1, c + 1);
    assert Texts(digests)[0..c] == Texts(digests[..c]);
    DecodeTexts(digests[..c]);
    assert c > 0 ==> SealedAt(sha, entries, c - 1);
  }

  /** A checkpoint that claims more than the log misses leaves. */
  lemma MissingLeaves(sha: Sha, entries: seq<Entry>, c: nat)
    requires Sealed(sha, entries) && c > |entries|
    ensures c !in HashBySeq(entries) && !LeavesComplete(Collect(HashBySeq(entries), 1, c + 1), c)
  {
    hide HashBySeq, Collect;
    SealedHashes(sha, entries);
    CollectMisses(HashBySeq(entries), 1, c + 1);
  }

  /** Over a sealed log, the anchor and Merkle checks are exactly `Anchors`. */
  lemma AnchorChecksExact(sha: Sha, entries: seq<Entry>, doc: CheckpointDoc)
    requires Sealed(sha, entries)
    ensures !MerkleRaises(HashBySeq(entries), doc)
    ensures AnchorReasons(HashBySeq(entries), doc) + MerkleReasons(sha, HashBySeq(entries), doc) == []
       <==> Anchors(sha, entries, doc)
  {
    hide MerkleRoot, HashBySeq, Collect, Decode, LeavesComplete, Sealed;
    if doc.coveredUpToSeq <= |entries| {
      CoveredLeaves(sha, entries, doc.coveredUpToSeq);
    } else {
      MissingLeaves(sha, entries, doc.coveredUpToSeq);
    }
  }

  lemma CheckpointCheckExact(env: Env, entries: seq<Entry>, checkpoints: seq<Checkpoint>, k: nat)
    requires Sealed(env.sha, entries) && k < |checkpoints|
    ensures !MerkleRaises(HashBySeq(entries), checkpoints[k].doc)
    ensures CheckpointFindings(env, HashBySeq(entries), checkpoints[k], k + 1, PrevCheckpointHash(checkpoints, k)) == []
       <==> CheckpointSealedAt(env, entries, checkpoints, k)
  {
    hide HashBySeq, MerkleReasons, AnchorReasons, AsymmetricReasons, Authentic, MerkleRaises, Anchors, Sealed;
    AnchorChecksExact(env.sha, entries, checkpoints[k].doc);
    AsymmetricCheckExact(env, checkpoints[k]);
  }

  lemma {:induction false} NoCheckpointViolationsFrom(
    env: Env, entries: seq<Entry>, checkpoints: seq<Checkpoint>, k: nat)
    requires Sealed(env.sha, entries) && k <= |checkpoints|
    requires forall c :: c in checkpoints ==> !MerkleRaises(HashBySeq(entries), c.doc)
    ensures CheckpointViolations(
              env, HashBySeq(entries), checkpoints[k..], k + 1, PrevCheckpointHash(checkpoints, k)) == []
       <==> forall j :: k <= j < |checkpoints| ==> CheckpointSealedAt(env, entries, checkpoints, j)
    decreases |checkpoints| - k
  {
    hide HashBySeq, CheckpointFindings, MerkleRaises, Sealed, Anchors, Authentic;
    if k < |checkpoints| {
      assert checkpoints[k] in checkpoints && checkpoints[k..][1..] == checkpoints[k + 1..];
      CheckpointCheckExact(env, entries, checkpoints, k);
      if checkpoints[k].doc.checkpointSeq == k + 1 {
        NoCheckpointViolationsFrom(env, entries, checkpoints, k + 1);
      } else {
        assert !CheckpointSealedAt(env, entries, checkpoints, k);
      }
    }
  }

  lemma CollectSkips(hashes: map<nat, HexText>, low: nat, high: nat)
    requires low < high && low !in hashes
    ensures Collect(hashes, low, high) == Collect(hashes, low + 1, high)
  {
  }

  lemma SealedRoot(sha: Sha, entries: seq<Entry>)
    requires Sealed(sha, entries)
    ensures RootOfTexts(sha, FullLength(Collect(HashBySeq(entries), 0, MaxSeq(entries) + 1)))
         == Some(MerkleRoot(sha, Digests(sha, entries)))
  {
    hide MerkleRoot, HashBySeq, Decode, FullLength, MaxSeq, Collect, Sealed;
    var n, digests := |entries|, Digests(sha, entries);
    SealedHashes(sha, entries);
    CollectSkips(HashBySeq(entries), 0, n + 1);
    CollectRange(sha, entries, 1, n + 1);
    assert Texts(digests)[0..n] == Texts(digests);
    DecodeTexts(digests);
  }

  /** Over a sealed log the report is produced and only checkpoints can spoil it. */
  lemma SealedReport(env: Env, organization: string, entries: seq<Entry>, checkpoints: seq<Checkpoint>)
    requires Sealed(env.sha, entries)
    ensures forall k :: k in checkpoints ==> !MerkleRaises(HashBySeq(entries), k.doc)
    ensures CheckpointViolations(env, HashBySeq(entries), checkpoints, 1, GENESIS) == []
       <==> CheckpointsSealed(env, entries, checkpoints)
  {
    hide HashBySeq, MerkleRaises, Sealed, CheckpointViolations, AnchorReasons, MerkleReasons;
    forall k | k in checkpoints ensures !MerkleRaises(HashBySeq(entries), k.doc) {
      AnchorChecksExact(env.sha, entries, k.doc);
    }
    NoCheckpointViolationsFrom(env, entries, checkpoints, 0);
    assert checkpoints[0..] == checkpoints;
  }

  /** The report is valid exactly for sealed logs with sealed checkpoints. */
  lemma ReportExact(env: Env, organization: string, entries: seq<Entry>, checkpoints: seq<Checkpoint>)
    ensures var result := ChainReport(env, organization, entries, checkpoints);
      (result.Ok? && result.value.valid) <==> (Sealed(env.sha, entries) && CheckpointsSealed(env, entries, checkpoints))
  {
    hide HashBySeq, MerkleRaises, Collect, MerkleRoot, FullLength, RootOfTexts, MaxSeq, Sealed, CheckpointsSealed,
      EntryViolations, CheckpointViolations, HeadHash;
    EntryScanExact(env.sha, entries);
    if Sealed(env.sha, entries) {
      SealedRoot(env.sha, entries);
      SealedReport(env, organization, entries, checkpoints);
    }
  }

  /** What a valid report says about the log. */
  lemma ReportContents(env: Env, organization: string, entries: seq<Entry>, checkpoints: seq<Checkpoint>)
    requires Sealed(env.sha, entries) && CheckpointsSealed(env, entries, checkpoints)
    ensures var result := ChainReport(env, organization, entries, checkpoints);
      && result.Ok? && result.value.valid
      && result.value.violations == [] && result.value.checkpointViolations == []
      && result.value.verifiedEntries == result.value.headChainSeq == |entries|
      && result.value.headHash == PrevHash(entries, |entries|)
      && result.value.merkleRoot == MerkleRoot(env.sha, Digests(env.sha, entries))
      && result.value.organization == organization
      && result.value.manifestDigest ==
         env.sha(ManifestJson(ManifestDoc(organization, |entries|, PrevHash(entries, |entries|), true)))
      && result.value.firstCorruptedSeq == None && result.value.firstCorruptedId == None
      && result.value.checkpointsVerified == |checkpoints|
      && result.value.latestCheckpointSeq == if checkpoints == [] then None else Some(|checkpoints|)
  {
    ReportExact(env, organization, entries, checkpoints);
    SealedHashes(env.sha, entries);
    SealedRoot(env.sha, entries);
    assert entries != [] ==> SealedAt(env.sha, entries, |entries| - 1);
    assert checkpoints != [] ==> CheckpointSealedAt(env, entries, checkpoints, |checkpoints| - 1);
  }

  // ---------- tamper evidence ----------

  function EntryInputs(entries: seq<Entry>): (inputs: set<Preimage>)
    ensures forall e :: e in entries ==> AuditJson(e.doc) in inputs
  {
    set e | e in entries :: AuditJson(e.doc)
  }

  lemma {:induction false} SameHeadWithin(sha: Sha, a: seq<Entry>, b: seq<Entry>, inputs: set<Preimage>)
    requires Sealed(sha, a) && Sealed(sha, b) && a != [] && b != []
    requires a[|a| - 1].entryHash == b[|b| - 1].entryHash
    requires EntryInputs(a) <= inputs && EntryInputs(b) <= inputs && !Collides(sha, inputs)
    ensures a == b
    decreases |a|
  {
    hide Collides, EntryInputs;
    var m, n := |a| - 1, |b| - 1;
    assert SealedAt(sha, a, m) && SealedAt(sha, b, n);
    assert AuditJson(a[m].doc) in inputs && AuditJson(b[n].doc) in inputs;
    NoCollision(sha, inputs, AuditJson(a[m].doc), AuditJson(b[n].doc));
    if m > 0 {
      SealedPrefix(sha, a, m);
      SealedPrefix(sha, b, m);
      SameHeadWithin(sha, a[..m], b[..m], inputs);
    }
    assert a == a[..m] + [a[m]] && b == b[..m] + [b[m]];
  }

  lemma SealedPrefix(sha: Sha, entries: seq<Entry>, n: nat)
    requires Sealed(sha, entries) && n <= |entries|
    ensures Sealed(sha, entries[..n])
    ensures EntryInputs(entries[..n]) <= EntryInputs(entries)
    ensures Digests(sha, entries[..n]) == Digests(sha, entries)[..n]
  {
    forall j | 0 <= j < n ensures SealedAt(sha, entries[..n], j) {
      assert SealedAt(sha, entries, j);
    }
  }

  /** Two logs that scan without violations and end in one head hash are the same
      log, in length and in every field; or two of their entries collide. */
  lemma ChainTamperEvidence(sha: Sha, a: seq<Entry>, b: seq<Entry>)
    requires a != [] && b != [] && a[|a| - 1].entryHash == b[|b| - 1].entryHash
    requires EntryViolations(sha, a, 1, GENESIS) == [] && EntryViolations(sha, b, 1, GENESIS) == []
    ensures a == b || Collides(sha, EntryInputs(a) + EntryInputs(b))
  {
    EntryScanExact(sha, a);
    EntryScanExact(sha, b);
    if !Collides(sha, EntryInputs(a) + EntryInputs(b)) {
      SameHeadWithin(sha, a, b, EntryInputs(a) + EntryInputs(b));
    }
  }

  /** A checkpoint taken of `before` and known by its hash alone binds the log:
      as long as reports that list it stay valid, the covered prefix of `before`
      is a prefix of the log, so truncating or rewriting it always shows. */
  lemma CheckpointBinding(
    env: Env, organization: string, before: seq<Entry>, taken: Checkpoint,
    entries: seq<Entry>, checkpoints: seq<Checkpoint>, j: nat)
    requires Sealed(env.sha, before) && Anchors(env.sha, before, taken.doc)
    requires j < |checkpoints| && checkpoints[j].checkpointHash == Hex(CheckpointDigest(env.sha, taken))
    requires var result := ChainReport(env, organization, entries, checkpoints); result.Ok? && result.value.valid
    ensures var c := taken.doc.coveredUpToSeq;
      || (c <= |entries| && entries[..c] == before[..c] && checkpoints[j].doc == taken.doc)
      || Collides(env.sha, EntryInputs(entries) + EntryInputs(before)
                           + {CheckpointJson(taken.doc), CheckpointJson(checkpoints[j].doc)})
  {
    hide Collides, EntryInputs, ChainReport, MerkleRoot;
    var c, listed := taken.doc.coveredUpToSeq, checkpoints[j];
    var inputs := EntryInputs(entries) + EntryInputs(before) + {CheckpointJson(taken.doc), CheckpointJson(listed.doc)};
    ReportExact(env, organization, entries, checkpoints);
    assert CheckpointSealedAt(env, entries, checkpoints, j);
    if !Collides(env.sha, inputs) {
      NoCollision(env.sha, inputs, CheckpointJson(listed.doc), CheckpointJson(taken.doc));
      if c > 0 {
        SealedPrefix(env.sha, before, c);
        SealedPrefix(env.sha, entries, c);
        SameHeadWithin(env.sha, entries[..c], before[..c], inputs);
      }
    }
  }

  // ---------- rows that read back differently ----------

  /** The rows as a verification reads them, if columns come back changed. */
  function AsRead(rows: seq<Entry>, readBack: AuditDoc -> AuditDoc): (read: seq<Entry>)
    ensures |read| == |rows|
    ensures forall i :: 0 <= i < |rows| ==> read[i] == Entry(readBack(rows[i].doc), rows[i].entryHash)
  {
    seq(|rows|, i requires 0 <= i < |rows| => Entry(readBack(rows[i].doc), rows[i].entryHash))
  }

  /** A sound log reads as valid exactly if every hashed column of every row reads back as it
      was hashed; or two of the documents collide. */
  lemma ReadBackExact(
    env: Env, organization: string, rows: seq<Entry>, checkpoints: seq<Checkpoint>, readBack: AuditDoc -> AuditDoc)
    requires Sealed(env.sha, rows) && CheckpointsSealed(env, rows, checkpoints)
    ensures var read := AsRead(rows, readBack);
      var result := ChainReport(env, organization, read, checkpoints);
      || ((result.Ok? && result.value.valid) <==> (forall i :: 0 <= i < |rows| ==> read[i].doc == rows[i].doc))
      || Collides(env.sha, EntryInputs(rows) + EntryInputs(read))
  {
    hide ChainReport, CheckpointsSealed, Collides, EntryInputs;
    var read := AsRead(rows, readBack);
    var inputs := EntryInputs(rows) + EntryInputs(read);
    ReportExact(env, organization, read, checkpoints);
    if forall i :: 0 <= i < |rows| ==> read[i].doc == rows[i].doc {
      assert read == rows;
    } else if Sealed(env.sha, read) && !Collides(env.sha, inputs) {
      forall i | 0 <= i < |rows| ensures read[i].doc == rows[i].doc {
        assert SealedAt(env.sha, rows, i) && SealedAt(env.sha, read, i) && rows[i] in rows && read[i] in read;
        NoCollision(env.sha, inputs, AuditJson(rows[i].doc), AuditJson(read[i].doc));
      }
    }
  }
}
