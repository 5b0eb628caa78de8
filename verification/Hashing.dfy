/** Bytes, SHA-256 digests and the inputs that the service hashes.

    SHA-256 itself stays abstract: every definition takes the hash as a
    parameter `sha`, an arbitrary total function, and nothing is ever assumed
    about it.  Where a property rests on collision resistance, its conclusion is
    "... or two different inputs out of this set, all of them hashed by the
    computations at hand, have the same digest" (`Collides`).
 */
module Hashing {
  import opened Wrappers

  newtype byte = b: int | 0 <= b < 256

  type Bytes = seq<byte>

  /** A SHA-256 digest: exactly 32 bytes. */
  type Digest = d: Bytes | |d| == 32 witness seq(32, _ => 0)

  /** Digest text as stored in a column or sent in a request, after the
      clean-up of the source: it either decodes to a digest or it does not. */
  datatype HexText = Hex(digest: Digest) | Other(raw: string)

  function Texts(digests: seq<Digest>): (texts: seq<HexText>)
    ensures |texts| == |digests|
    ensures forall i :: 0 <= i < |digests| ==> texts[i] == Hex(digests[i])
  {
    seq(|digests|, i requires 0 <= i < |digests| => Hex(digests[i]))
  }

  /** The columns of an audit entry that its hash covers. */
  datatype AuditDoc = AuditDoc(
    id: string,
    organization: Option<string>,
    user: Option<string>,
    action: string,
    resourceType: string,
    resourceId: string,
    ipAddress: Option<string>,
    userAgent: string,
    metadata: string,
    createdAt: string,
    chainSeq: nat,
    prevHash: HexText)

  /** The columns of a checkpoint that its hash covers. */
  datatype CheckpointDoc = CheckpointDoc(
    id: string,
    organization: string,
    checkpointSeq: nat,
    coveredUpToSeq: nat,
    verifiedEntries: nat,
    headHash: HexText,
    manifestDigest: HexText,
    prevCheckpointHash: HexText,
    retentionUntil: string,
    createdAt: string,
    merkleRoot: Option<HexText>)

  datatype ManifestDoc = ManifestDoc(
    organization: string, verifiedEntries: nat, headHash: HexText, valid: bool)

  /** Everything the service feeds to SHA-256.  Canonical JSON texts are
      represented by the document they encode; they start with a brace, so none
      of them is a Merkle input. */
  datatype Preimage =
    | Raw(bytes: Bytes)
    | AuditJson(audit: AuditDoc)
    | CheckpointJson(checkpoint: CheckpointDoc)
    | ManifestJson(manifest: ManifestDoc)

  type Sha = Preimage -> Digest

  /** Two different inputs out of `inputs` share a digest. */
  ghost predicate Collides(sha: Sha, inputs: set<Preimage>) {
    exists x, y :: x in inputs && y in inputs && x != y && sha(x) == sha(y)
  }

  lemma NoCollision(sha: Sha, inputs: set<Preimage>, x: Preimage, y: Preimage)
    requires !Collides(sha, inputs) && x in inputs && y in inputs && sha(x) == sha(y)
    ensures x == y
  {
  }
}
