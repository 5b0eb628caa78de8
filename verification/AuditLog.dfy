/** The audit log over time: inserts into any tenant's chain interleaved with
    checkpoint calls, which read entries, read checkpoints, verify, and commit
    later under a lock (`seal_and_insert_audit_log` and
    `create_organization_audit_checkpoint` of apps/core/audit_chain.py).  Each
    query and each transaction is one atomic step. */
module AuditLog {
  import opened Hashing
  import opened MerkleTree
  import opened AuditChain
  import opened Sequences
  import opened Wrappers

  // ---------- queries ----------

  /** `ORDER BY key`, keeping the stored order among equal keys. */
  function OrderBy<T>(rows: seq<T>, key: T -> nat): seq<T> {
    if rows == [] then [] else InsertBy(OrderBy(rows[..|rows| - 1], key), rows[|rows| - 1], key)
  }

  function InsertBy<T>(rows: seq<T>, row: T, key: T -> nat): seq<T> {
    if rows == [] then [row]
    else if key(row) < key(rows[0]) then [row] + rows
    else [rows[0]] + InsertBy(rows[1..], row, key)
  }

  /** `ORDER BY key DESC LIMIT 1`. */
  function Latest<T>(rows: seq<T>, key: T -> nat): Option<T> {
    if rows == [] then
      None
    else
      var last := rows[|rows| - 1];
      match Latest(rows[..|rows| - 1], key)
      case None => Some(last)
      case Some(best) => if key(last) >= key(best) then Some(last) else Some(best)
  }

  ghost predicate Ordered<T>(rows: seq<T>, key: T -> nat) {
    forall i, j :: 0 <= i < j < |rows| ==> key(rows[i]) <= key(rows[j])
  }

  /** Ordering keeps all rows and puts them in the order of their keys. */
  lemma {:induction false} OrderBySorts<T>(rows: seq<T>, key: T -> nat)
    ensures multiset(OrderBy(rows, key)) == multiset(rows) && Ordered(OrderBy(rows, key), key)
  {
    hide Ordered, InsertBy;
    if rows == [] {
      NoneOrdered(key);
    } else {
      var n := |rows| - 1;
      OrderBySorts(rows[..n], key);
      InsertByKeeps(OrderBy(rows[..n], key), rows[n], key);
      InsertByOrders(OrderBy(rows[..n], key), rows[n], key);
      assert rows == rows[..n] + [rows[n]];
    }
  }

  lemma NoneOrdered<T>(key: T -> nat)
    ensures Ordered([], key)
  {
  }

  lemma {:induction false} InsertByKeeps<T>(rows: seq<T>, row: T, key: T -> nat)
    ensures multiset(InsertBy(rows, row, key)) == multiset(rows) + multiset{row}
  {
    if rows != [] && key(row) >= key(rows[0]) {
      InsertByKeeps(rows[1..], row, key);
      assert rows == [rows[0]] + rows[1..];
    }
  }

  lemma {:induction false} InsertByOrders<T>(rows: seq<T>, row: T, key: T -> nat)
    requires Ordered(rows, key)
    ensures Ordered(InsertBy(rows, row, key), key)
    ensures InsertBy(rows, row, key) != []
    ensures key(InsertBy(rows, row, key)[0]) ==
              if rows == [] || key(row) < key(rows[0]) then key(row) else key(rows[0])
  {
    hide Ordered;
    if rows == [] {
      OrderedPrepend(row, rows, key);
      assert [row] + rows == [row];
    } else if key(row) < key(rows[0]) {
      OrderedPrepend(row, rows, key);
    } else {
      OrderedRest(rows, key);
      InsertByOrders(rows[1..], row, key);
      assert InsertBy(rows, row, key) == [rows[0]] + InsertBy(rows[1..], row, key);
      OrderedPrepend(rows[0], InsertBy(rows[1..], row, key), key);
    }
  }

  lemma OrderedPrepend<T>(row: T, rows: seq<T>, key: T -> nat)
    requires Ordered(rows, key) && (rows != [] ==> key(row) <= key(rows[0]))
    ensures Ordered([row] + rows, key)
  {
    assert forall j :: 0 < j < |rows| ==> key(rows[0]) <= key(rows[j]);
  }

  lemma OrderedRest<T>(rows: seq<T>, key: T -> nat)
    requires Ordered(rows, key) && rows != []
    ensures Ordered(rows[1..], key) && (|rows| > 1 ==> key(rows[0]) <= key(rows[1]))
  {
  }

  /** The latest row has the highest key. */
  lemma {:induction false} LatestExact<T>(rows: seq<T>, key: T -> nat)
    ensures match Latest(rows, key)
      case None => rows == []
      case Some(best) => best in rows && forall row :: row in rows ==> key(row) <= key(best)
  {
    if rows != [] {
      LatestExact(rows[..|rows| - 1], key);
      assert rows == rows[..|rows| - 1] + [rows[|rows| - 1]];
    }
  }

  function EntrySeq(entry: Entry): nat {
    entry.doc.chainSeq
  }

  function CheckpointSeq(checkpoint: Checkpoint): nat {
    checkpoint.doc.checkpointSeq
  }

  /** The rows of one tenant, or of the global chain. */
  function ScopeRows(entries: seq<Entry>, scope: Option<string>): seq<Entry> {
    if entries == [] then
      []
    else
      var last := entries[|entries| - 1];
      ScopeRows(entries[..|entries| - 1], scope) + if last.doc.organization == scope then [last] else []
  }

  function TenantCheckpoints(checkpoints: seq<Checkpoint>, organization: string): seq<Checkpoint> {
    if checkpoints == [] then
      []
    else
      var last := checkpoints[|checkpoints| - 1];
      TenantCheckpoints(checkpoints[..|checkpoints| - 1], organization)
      + if last.doc.organization == organization then [last] else []
  }

  lemma {:induction false} OrderOfNumbered<T>(rows: seq<T>, key: T -> nat)
    requires forall i :: 0 <= i < |rows| ==> key(rows[i]) == i + 1
    ensures OrderBy(rows, key) == rows
    ensures Latest(rows, key) == if rows == [] then None else Some(rows[|rows| - 1])
  {
    if rows != [] {
      var n := |rows| - 1;
      OrderOfNumbered(rows[..n], key);
      InsertAtEnd(rows[..n], rows[n], key);
      assert rows == rows[..n] + [rows[n]];
    }
  }

  lemma {:induction false} InsertAtEnd<T>(rows: seq<T>, row: T, key: T -> nat)
    requires forall i :: 0 <= i < |rows| ==> key(rows[i]) <= key(row)
    ensures InsertBy(rows, row, key) == rows + [row]
  {
    if rows != [] {
      InsertAtEnd(rows[1..], row, key);
      assert [rows[0]] + (rows[1..] + [row]) == rows + [row];
    }
  }

  // ---------- transactions ----------

  /** The next link of a chain: `body` gets its number, its predecessor's hash
      and its own hash. */
  function Seal(sha: Sha, rows: seq<Entry>, body: AuditDoc): Entry {
    var head := Latest(rows, EntrySeq);
    var (prevSeq, prevDigest) :=
      if head.Some? && head.value.doc.chainSeq > 0 && head.value.entryHash != Other("")
      then (head.value.doc.chainSeq, head.value.entryHash)
      else (0, GENESIS);
    var doc := body.(chainSeq := prevSeq + 1, prevHash := prevDigest);
    Entry(doc, Hex(sha(AuditJson(doc))))
  }

  /** The report on entries that were read before, and on the checkpoints stored now. */
  function ReadReport(env: Env, organization: string, rows: seq<Entry>, checkpoints: seq<Checkpoint>)
    : Result<Report, VerifyError>
  {
    ChainReport(env, organization, rows, OrderBy(TenantCheckpoints(checkpoints, organization), CheckpointSeq))
  }

  /** The report of a verification that reads both tables at one instant. */
  function TenantReport(env: Env, entries: seq<Entry>, checkpoints: seq<Checkpoint>, organization: string)
    : Result<Report, VerifyError>
  {
    ReadReport(env, organization, OrderBy(ScopeRows(entries, Some(organization)), EntrySeq), checkpoints)
  }

  /** Why a checkpoint call raises. */
  datatype Refusal = ChainUnreadable | ChainInvalid

  /** How a checkpoint call goes on from the report. */
  function OutcomeOf(result: Result<Report, VerifyError>, force: bool): Result<Option<Report>, Refusal> {
    match result
    case Err(_) => Err(ChainUnreadable)
    case Ok(report) =>
      if !report.valid then Err(ChainInvalid)
      else if report.verifiedEntries == 0 && !force then Ok(None)
      else Ok(Some(report))
  }

  /** What the caller of a checkpoint commit supplies: the new identifier, the
      timestamps, and the asymmetric signature if signing was possible. */
  datatype Stamp = Stamp(id: string, retentionUntil: string, createdAt: string, signature: Option<string>)

  /** The new checkpoint row for a report, after the tenant's latest one. */
  function Mint(env: Env, latest: Option<Checkpoint>, report: Report, stamp: Stamp): Checkpoint {
    var doc := CheckpointDoc(
      stamp.id,
      report.organization,
      if latest.Some? then latest.value.doc.checkpointSeq + 1 else 1,
      report.headChainSeq,
      report.verifiedEntries,
      report.headHash,
      Hex(report.manifestDigest),
      if latest.Some? then latest.value.checkpointHash else GENESIS,
      stamp.retentionUntil,
      stamp.createdAt,
      Some(Hex(report.merkleRoot)));
    var hash := env.sha(CheckpointJson(doc));
    if stamp.signature.Some? && env.key.Some? then
      Checkpoint(
        doc, Hex(hash), env.mac(hash), env.key.value.algorithm, env.key.value.fingerprint, stamp.signature.value)
    else
      Checkpoint(doc, Hex(hash), env.mac(hash), HmacSha256, "", "")
  }

  /** A signature that was obtained is one that the public key accepts. */
  predicate StampSigns(env: Env, latest: Option<Checkpoint>, report: Report, stamp: Stamp) {
    stamp.signature.Some? ==>
      && env.key.Some?
      && env.key.value.algorithm in {Ed25519, KmsEcdsaSha256}
      && stamp.signature.value != ""
      && env.key.value.check(CheckpointDigest(env.sha, Mint(env, latest, report, stamp)), stamp.signature.value)
  }

  /** Without `force` nothing is written when the latest checkpoint already says
      the same. */
  predicate AlreadyAnchored(latest: Option<Checkpoint>, report: Report, force: bool) {
    && latest.Some? && !force
    && latest.value.doc.coveredUpToSeq == report.headChainSeq
    && latest.value.doc.headHash == report.headHash
  }

  class AuditStore {
    const env: Env
    var entries: seq<Entry>
    var checkpoints: seq<Checkpoint>

    constructor (env: Env)
      ensures this.env == env && entries == [] && checkpoints == []
    {
      this.env := env;
      entries, checkpoints := [], [];
    }

    method SealAndInsert(body: AuditDoc) returns (entry: Entry)
      modifies this`entries
      ensures entry == Seal(env.sha, ScopeRows(old(entries), body.organization), body)
      ensures entries == old(entries) + [entry]
    {
      var head := Latest(ScopeRows(entries, body.organization), EntrySeq);
      var prevSeq: nat, prevDigest := 0, GENESIS;
      if head.Some? && head.value.doc.chainSeq > 0 && head.value.entryHash != Other("") {
        prevSeq, prevDigest := head.value.doc.chainSeq, head.value.entryHash;
      }
      var doc := body.(chainSeq := prevSeq + 1, prevHash := prevDigest);
      entry := Entry(doc, Hex(env.sha(AuditJson(doc))));
      entries := entries + [entry];
    }

    /** The first query of a verification. */
    method ReadEntries(organization: string) returns (rows: seq<Entry>)
      ensures rows == OrderBy(ScopeRows(entries, Some(organization)), EntrySeq)
    {
      rows := OrderBy(ScopeRows(entries, Some(organization)), EntrySeq);
    }

    /** The second query, and the verification of what was read. */
    method ReadCheckpoints(organization: string, rows: seq<Entry>) returns (result: Result<Report, VerifyError>)
      ensures result == ReadReport(env, organization, rows, checkpoints)
    {
      result := VerifyOrganizationAuditChain(
        env, organization, rows, OrderBy(TenantCheckpoints(checkpoints, organization), CheckpointSeq));
    }

    /** The first half of a checkpoint call that nothing interrupts; no report means
        nothing to anchor. */
    method BeginCheckpoint(organization: string, force: bool) returns (outcome: Result<Option<Report>, Refusal>)
      ensures outcome == OutcomeOf(TenantReport(env, entries, checkpoints, organization), force)
    {
      var rows := ReadEntries(organization);
      var result := ReadCheckpoints(organization, rows);
      if result.Err? {
        return Err(ChainUnreadable);
      }
      if !result.value.valid {
        return Err(ChainInvalid);
      }
      if result.value.verifiedEntries == 0 && !force {
        return Ok(None);
      }
      outcome := Ok(Some(result.value));
    }

    /** The second half, under the tenant's checkpoint lock. */
    method CommitCheckpoint(report: Report, force: bool, stamp: Stamp) returns (checkpoint: Checkpoint, created: bool)
      modifies this`checkpoints
      ensures var latest := Latest(TenantCheckpoints(old(checkpoints), report.organization), CheckpointSeq);
        if AlreadyAnchored(latest, report, force)
        then checkpoint == latest.value && !created && checkpoints == old(checkpoints)
        else checkpoint == Mint(env, latest, report, stamp) && created && checkpoints == old(checkpoints) + [checkpoint]
    {
      var latest := Latest(TenantCheckpoints(checkpoints, report.organization), CheckpointSeq);
      if AlreadyAnchored(latest, report, force) {
        return latest.value, false;
      }
      checkpoint, created := Mint(env, latest, report, stamp), true;
      checkpoints := checkpoints + [checkpoint];
    }
  }

  // ---------- interleavings ----------

  /** A checkpoint call that has read the entries and not yet the checkpoints. */
  datatype Reading = Reading(organization: string, force: bool, rows: seq<Entry>)

  /** The stored rows, the checkpoint calls between their two queries, and the reports of
      those that have verified but not yet committed. */
  datatype Log = Log(
    entries: seq<Entry>, checkpoints: seq<Checkpoint>, reading: seq<Reading>, pending: seq<Report>)

  datatype Step =
    | Insert(body: AuditDoc)
    | ReadEntries(organization: string, force: bool)
    | ReadCheckpoints(call: nat)
    | CommitCheckpoint(call: nat, force: bool, stamp: Stamp)
    | AbandonRead(call: nat)
    | AbandonCheckpoint(call: nat)

  /** How the call between its queries at index `call` goes on if it reads the checkpoints
      now. */
  function ReadOutcome(env: Env, log: Log, call: nat): Result<Option<Report>, Refusal>
    requires call < |log.reading|
  {
    var r := log.reading[call];
    OutcomeOf(ReadReport(env, r.organization, r.rows, log.checkpoints), r.force)
  }

  /** The effect of one step; a step that is not possible changes nothing. */
  function Apply(env: Env, log: Log, step: Step): Log {
    match step
    case Insert(body) =>
      log.(entries := log.entries + [Seal(env.sha, ScopeRows(log.entries, body.organization), body)])
    case ReadEntries(organization, force) =>
      var rows := OrderBy(ScopeRows(log.entries, Some(organization)), EntrySeq);
      log.(reading := log.reading + [Reading(organization, force, rows)])
    case ReadCheckpoints(call) =>
      if call >= |log.reading| then
        log
      else
        (match ReadOutcome(env, log, call)
         case Ok(Some(report)) =>
           log.(reading := Without(log.reading, call), pending := log.pending + [report])
         case _ => log.(reading := Without(log.reading, call)))
    case CommitCheckpoint(call, force, stamp) =>
      if call >= |log.pending| then
        log
      else
        var report := log.pending[call];
        var latest := Latest(TenantCheckpoints(log.checkpoints, report.organization), CheckpointSeq);
        if AlreadyAnchored(latest, report, force) then
          log.(pending := Without(log.pending, call))
        else if !StampSigns(env, latest, report, stamp) then
          log
        else
          log.(checkpoints := log.checkpoints + [Mint(env, latest, report, stamp)],
               pending := Without(log.pending, call))
    case AbandonRead(call) =>
      if call >= |log.reading| then log else log.(reading := Without(log.reading, call))
    case AbandonCheckpoint(call) =>
      if call >= |log.pending| then log else log.(pending := Without(log.pending, call))
  }

  function Execute(env: Env, steps: seq<Step>): Log {
    if steps == [] then Log([], [], [], [])
    else Apply(env, Execute(env, steps[..|steps| - 1]), steps[|steps| - 1])
  }

  // ---------- the invariant ----------

  /** A pending report describes a prefix of its tenant's chain. */
  ghost predicate Describes(sha: Sha, rows: seq<Entry>, report: Report) {
    var c := report.headChainSeq;
    && c <= |rows|
    && report.headHash == PrevHash(rows, c)
    && report.merkleRoot == MerkleRoot(sha, Digests(sha, rows)[..c])
    && report.verifiedEntries == c
    && report.manifestDigest == ManifestDigest(sha, report.organization, c, PrevHash(rows, c), true)
  }

  ghost predicate ChainsSealed(env: Env, log: Log) {
    forall scope :: Sealed(env.sha, ScopeRows(log.entries, scope))
  }

  ghost predicate AllCheckpointsSealed(env: Env, log: Log) {
    forall org :: CheckpointsSealed(env, ScopeRows(log.entries, Some(org)), TenantCheckpoints(log.checkpoints, org))
  }

  ghost predicate PendingDescribes(env: Env, log: Log) {
    forall i :: 0 <= i < |log.pending| ==>
      Describes(env.sha, ScopeRows(log.entries, Some(log.pending[i].organization)), log.pending[i])
  }

  /** What a call has read is how its tenant's chain begins. */
  ghost predicate ReadingsKnown(env: Env, log: Log) {
    forall i :: 0 <= i < |log.reading| ==>
      log.reading[i].rows <= ScopeRows(log.entries, Some(log.reading[i].organization))
  }

  ghost predicate Good(env: Env, log: Log) {
    ChainsSealed(env, log) && AllCheckpointsSealed(env, log) && ReadingsKnown(env, log) && PendingDescribes(env, log)
  }

  /** A sealed log and its checkpoints come out of the ordered queries as stored. */
  lemma SealedQueries(env: Env, rows: seq<Entry>, checkpoints: seq<Checkpoint>)
    requires Sealed(env.sha, rows) && CheckpointsSealed(env, rows, checkpoints)
    ensures OrderBy(rows, EntrySeq) == rows && OrderBy(checkpoints, CheckpointSeq) == checkpoints
    ensures Latest(rows, EntrySeq) == if rows == [] then None else Some(rows[|rows| - 1])
    ensures Latest(checkpoints, CheckpointSeq) ==
            if checkpoints == [] then None else Some(checkpoints[|checkpoints| - 1])
  {
    forall i | 0 <= i < |rows| ensures EntrySeq(rows[i]) == i + 1 {
      assert SealedAt(env.sha, rows, i);
    }
    forall i | 0 <= i < |checkpoints| ensures CheckpointSeq(checkpoints[i]) == i + 1 {
      assert CheckpointSealedAt(env, rows, checkpoints, i);
    }
    OrderOfNumbered(rows, EntrySeq);
    OrderOfNumbered(checkpoints, CheckpointSeq);
  }

  /** Sealing extends a sealed chain by a sealed entry. */
  lemma SealExtends(sha: Sha, rows: seq<Entry>, body: AuditDoc)
    requires Sealed(sha, rows)
    ensures Sealed(sha, rows + [Seal(sha, rows, body)])
  {
    var n, extended := |rows|, rows + [Seal(sha, rows, body)];
    forall i | 0 <= i < n ensures EntrySeq(rows[i]) == i + 1 && SealedAt(sha, extended, i) {
      assert SealedAt(sha, rows, i);
    }
    OrderOfNumbered(rows, EntrySeq);
    assert n > 0 ==> SealedAt(sha, rows, n - 1);
    assert SealedAt(sha, extended, n);
  }

  /** Nothing that a report says about a chain's beginning changes when it grows. */
  lemma GrowthKeepsReports(sha: Sha, rows: seq<Entry>, entry: Entry)
    ensures forall report :: Describes(sha, rows, report) ==> Describes(sha, rows + [entry], report)
  {
    var digests, extended := Digests(sha, rows), Digests(sha, rows + [entry]);
    assert forall c :: 0 <= c <= |rows| ==> digests[..c] == extended[..c];
  }

  /** An insert extends its own scope's rows and no others. */
  lemma InsertExtends(env: Env, log: Log, body: AuditDoc)
    ensures var after := Apply(env, log, Insert(body)); var rows := ScopeRows(log.entries, body.organization);
      forall scope :: ScopeRows(after.entries, scope) ==
        (if scope == body.organization then rows + [Seal(env.sha, rows, body)] else ScopeRows(log.entries, scope))
  {
    hide Seal;
    SealKeepsScope(env.sha, ScopeRows(log.entries, body.organization), body);
    assert Apply(env, log, Insert(body)).entries[..|log.entries|] == log.entries;
  }

  lemma SealKeepsScope(sha: Sha, rows: seq<Entry>, body: AuditDoc)
    ensures Seal(sha, rows, body).doc.organization == body.organization
  {
  }

  /** Sealed checkpoints stay sealed when the chain grows. */
  lemma GrowthKeepsCheckpoints(env: Env, rows: seq<Entry>, grown: seq<Entry>, checkpoints: seq<Checkpoint>)
    requires rows <= grown && CheckpointsSealed(env, rows, checkpoints)
    ensures CheckpointsSealed(env, grown, checkpoints)
  {
    hide Anchors, Authentic;
    forall j | 0 <= j < |checkpoints| ensures CheckpointSealedAt(env, grown, checkpoints, j) {
      assert CheckpointSealedAt(env, rows, checkpoints, j);
      AnchorsGrow(env.sha, rows, grown, checkpoints[j].doc);
    }
  }

  lemma AnchorsGrow(sha: Sha, rows: seq<Entry>, grown: seq<Entry>, doc: CheckpointDoc)
    requires rows <= grown && Anchors(sha, rows, doc)
    ensures Anchors(sha, grown, doc)
  {
    hide MerkleRoot;
    assert Digests(sha, rows)[..doc.coveredUpToSeq] == Digests(sha, grown)[..doc.coveredUpToSeq];
  }

  lemma InsertKeepsGood(env: Env, log: Log, body: AuditDoc)
    requires Good(env, log)
    ensures Good(env, Apply(env, log, Insert(body)))
  {
    hide MerkleRoot, Sealed, CheckpointsSealed, Describes, Seal, ScopeRows;
    var scope := body.organization;
    var rows := ScopeRows(log.entries, scope);
    var entry := Seal(env.sha, rows, body);
    var after := Apply(env, log, Insert(body));
    InsertExtends(env, log, body);
    SealExtends(env.sha, rows, body);
    GrowthKeepsReports(env.sha, rows, entry);
    forall org
      ensures CheckpointsSealed(env, ScopeRows(after.entries, Some(org)), TenantCheckpoints(after.checkpoints, org))
    {
      if Some(org) == scope {
        GrowthKeepsCheckpoints(env, rows, rows + [entry], TenantCheckpoints(log.checkpoints, org));
      }
    }
  }

  lemma ReadEntriesKeepsGood(env: Env, log: Log, organization: string, force: bool)
    requires Good(env, log)
    ensures Good(env, Apply(env, log, ReadEntries(organization, force)))
  {
    hide MerkleRoot, Sealed, CheckpointsSealed, Describes, ScopeRows, OrderBy;
    SealedQueries(env, ScopeRows(log.entries, Some(organization)), TenantCheckpoints(log.checkpoints, organization));
  }

  lemma ReportNamesTenant(env: Env, organization: string, rows: seq<Entry>, checkpoints: seq<Checkpoint>)
    ensures var result := ChainReport(env, organization, rows, checkpoints);
      result.Ok? ==> result.value.organization == organization
  {
    hide MerkleRaises;
  }

  ghost predicate Covers(checkpoints: seq<Checkpoint>, bound: nat) {
    forall i :: 0 <= i < |checkpoints| ==> checkpoints[i].doc.coveredUpToSeq <= bound
  }

  /** What a checkpoint anchors in a chain it anchors in the chain's beginning, if it does
      not cover more than that. */
  lemma AnchorsInPrefix(sha: Sha, rows: seq<Entry>, n: nat, doc: CheckpointDoc)
    requires n <= |rows| && Anchors(sha, rows, doc)
    ensures Anchors(sha, rows[..n], doc) <==> doc.coveredUpToSeq <= n
  {
    hide MerkleRoot;
    if doc.coveredUpToSeq <= n {
      assert Digests(sha, rows[..n])[..doc.coveredUpToSeq] == Digests(sha, rows)[..doc.coveredUpToSeq];
    }
  }

  lemma SealedOverPrefix(env: Env, rows: seq<Entry>, n: nat, checkpoints: seq<Checkpoint>)
    requires n <= |rows| && CheckpointsSealed(env, rows, checkpoints)
    ensures CheckpointsSealed(env, rows[..n], checkpoints) <==> Covers(checkpoints, n)
  {
    hide Anchors, Authentic;
    forall j | 0 <= j < |checkpoints|
      ensures CheckpointSealedAt(env, rows[..n], checkpoints, j) <==> checkpoints[j].doc.coveredUpToSeq <= n
    {
      assert CheckpointSealedAt(env, rows, checkpoints, j);
      AnchorsInPrefix(env.sha, rows, n, checkpoints[j].doc);
    }
    if !Covers(checkpoints, n) {
      var j :| 0 <= j < |checkpoints| && checkpoints[j].doc.coveredUpToSeq > n;
      assert !CheckpointSealedAt(env, rows[..n], checkpoints, j);
    }
  }

  /** A verification whose first query read only the beginning of a sealed chain: it never
      raises, finds nothing wrong with the entries, and calls the chain valid exactly if
      none of the checkpoints that its second query read covers more than that. */
  lemma TornReport(env: Env, organization: string, read: seq<Entry>, rows: seq<Entry>, checkpoints: seq<Checkpoint>)
    requires read <= rows && Sealed(env.sha, rows) && CheckpointsSealed(env, rows, checkpoints)
    ensures var result := ChainReport(env, organization, read, checkpoints);
      && result.Ok? && result.value.violations == []
      && (result.value.valid <==> Covers(checkpoints, |read|))
      && (result.value.valid ==>
            && result.value.organization == organization
            && result.value.verifiedEntries == result.value.headChainSeq == |read|
            && Describes(env.sha, rows, result.value))
    ensures OrderBy(read, EntrySeq) == read && OrderBy(checkpoints, CheckpointSeq) == checkpoints
  {
    hide MerkleRoot, Sealed, CheckpointsSealed, ChainReport;
    assert read == rows[..|read|];
    SealedPrefix(env.sha, rows, |read|);
    SealedOverPrefix(env, rows, |read|, checkpoints);
    ReportExact(env, organization, read, checkpoints);
    SealedReads(env, organization, read, checkpoints);
    ReportNamesTenant(env, organization, read, checkpoints);
    SealedQueries(env, rows, checkpoints);
    SealedQueries(env, read, []) by { NoCheckpoints(env, read); }
    if Covers(checkpoints, |read|) {
      ReportContents(env, organization, read, checkpoints);
      assert Digests(env.sha, read)[..|read|] == Digests(env.sha, read);
    }
  }

  lemma NoCheckpoints(env: Env, rows: seq<Entry>)
    ensures CheckpointsSealed(env, rows, [])
  {
  }

  /** Over sealed entries a report is produced, and it blames no entry. */
  lemma SealedReads(env: Env, organization: string, rows: seq<Entry>, checkpoints: seq<Checkpoint>)
    requires Sealed(env.sha, rows)
    ensures var result := ChainReport(env, organization, rows, checkpoints);
      result.Ok? && result.value.violations == []
  {
    hide MerkleRoot, Sealed, CheckpointsSealed, MerkleRaises, RootOfTexts, EntryViolations, CheckpointViolations;
    EntryScanExact(env.sha, rows);
    SealedRoot(env.sha, rows);
    SealedReport(env, organization, rows, checkpoints);
  }

  lemma ReadCheckpointsKeepsGood(env: Env, log: Log, call: nat)
    requires Good(env, log)
    ensures Good(env, Apply(env, log, ReadCheckpoints(call)))
  {
    hide MerkleRoot, Sealed, CheckpointsSealed, Describes, ScopeRows, ChainReport, OrderBy;
    if call < |log.reading| {
      var r := log.reading[call];
      var rows := ScopeRows(log.entries, Some(r.organization));
      TornReport(env, r.organization, r.rows, rows, TenantCheckpoints(log.checkpoints, r.organization));
      forall i | 0 <= i < |Without(log.reading, call)|
        ensures Without(log.reading, call)[i] == log.reading[if i < call then i else i + 1]
      {
      }
    }
  }

  /** A minted checkpoint follows the latest one, carries its own hash and valid
      signatures, and anchors what its report describes. */
  lemma MintFields(env: Env, latest: Option<Checkpoint>, rows: seq<Entry>, report: Report, stamp: Stamp)
    requires StampSigns(env, latest, report, stamp) && Describes(env.sha, rows, report)
    ensures var minted := Mint(env, latest, report, stamp);
      && minted.doc.checkpointSeq == (if latest.Some? then latest.value.doc.checkpointSeq + 1 else 1)
      && minted.doc.prevCheckpointHash == (if latest.Some? then latest.value.checkpointHash else GENESIS)
      && minted.checkpointHash == Hex(CheckpointDigest(env.sha, minted))
      && minted.signature == env.mac(CheckpointDigest(env.sha, minted))
      && Authentic(env, minted)
      && Anchors(env.sha, rows, minted.doc)
  {
    hide MerkleRoot;
  }

  /** A checkpoint minted from a report that describes the chain is sealed. */
  lemma MintSeals(env: Env, rows: seq<Entry>, checkpoints: seq<Checkpoint>, report: Report, stamp: Stamp)
    requires Sealed(env.sha, rows) && CheckpointsSealed(env, rows, checkpoints) && Describes(env.sha, rows, report)
    requires StampSigns(env, Latest(checkpoints, CheckpointSeq), report, stamp)
    ensures CheckpointsSealed(env, rows, checkpoints + [Mint(env, Latest(checkpoints, CheckpointSeq), report, stamp)])
  {
    hide Mint, Anchors, Authentic, StampSigns, Describes, Latest, OrderBy, Sealed;
    var n, latest := |checkpoints|, Latest(checkpoints, CheckpointSeq);
    var extended := checkpoints + [Mint(env, latest, report, stamp)];
    SealedQueries(env, rows, checkpoints);
    MintFields(env, latest, rows, report, stamp);
    forall j | 0 <= j < n ensures CheckpointSealedAt(env, rows, extended, j) {
      assert CheckpointSealedAt(env, rows, checkpoints, j);
    }
    assert n > 0 ==> CheckpointSealedAt(env, rows, checkpoints, n - 1);
    assert CheckpointSealedAt(env, rows, extended, n);
  }

  lemma CommitKeepsGood(env: Env, log: Log, call: nat, force: bool, stamp: Stamp)
    requires Good(env, log)
    ensures Good(env, Apply(env, log, CommitCheckpoint(call, force, stamp)))
  {
    hide MerkleRoot, Sealed, Describes, CheckpointsSealed, Mint, Latest;
    var after := Apply(env, log, CommitCheckpoint(call, force, stamp));
    if call < |log.pending| {
      var report := log.pending[call];
      var rows, checkpoints :=
        ScopeRows(log.entries, Some(report.organization)), TenantCheckpoints(log.checkpoints, report.organization);
      var latest := Latest(checkpoints, CheckpointSeq);
      if StampSigns(env, latest, report, stamp) && !AlreadyAnchored(latest, report, force) {
        var minted := Mint(env, latest, report, stamp);
        MintSeals(env, rows, checkpoints, report, stamp);
        MintNamesTenant(env, latest, report, stamp);
        assert after.checkpoints[..|log.checkpoints|] == log.checkpoints;
        forall org
          ensures TenantCheckpoints(after.checkpoints, org)
               == if org == report.organization then checkpoints + [minted] else TenantCheckpoints(log.checkpoints, org)
        {
        }
      }
    }
  }

  lemma MintNamesTenant(env: Env, latest: Option<Checkpoint>, report: Report, stamp: Stamp)
    ensures Mint(env, latest, report, stamp).doc.organization == report.organization
  {
  }

  lemma DropKeepsGood(env: Env, log: Log, step: Step)
    requires step.AbandonRead? || step.AbandonCheckpoint?
    requires Good(env, log)
    ensures Good(env, Apply(env, log, step))
  {
    hide Sealed, CheckpointsSealed, Describes, ScopeRows, TenantCheckpoints;
  }

  lemma NothingStored(env: Env)
    ensures Good(env, Log([], [], [], []))
  {
  }

  lemma {:induction false} ExecutionsAreGood(env: Env, steps: seq<Step>)
    ensures Good(env, Execute(env, steps))
  {
    hide Good, Apply;
    if steps == [] {
      NothingStored(env);
    } else {
      var before, step := Execute(env, steps[..|steps| - 1]), steps[|steps| - 1];
      ExecutionsAreGood(env, steps[..|steps| - 1]);
      match step
      case Insert(body) => InsertKeepsGood(env, before, body);
      case ReadEntries(organization, force) => ReadEntriesKeepsGood(env, before, organization, force);
      case ReadCheckpoints(call) => ReadCheckpointsKeepsGood(env, before, call);
      case CommitCheckpoint(call, force, stamp) => CommitKeepsGood(env, before, call, force, stamp);
      case _ => DropKeepsGood(env, before, step);
    }
  }

  /** However inserts and checkpoint calls interleave, every tenant's stored chain is sound:
      a verification that reads both tables at one instant produces a valid report that
      counts exactly the tenant's rows. */
  lemma RunSafety(env: Env, steps: seq<Step>, organization: string)
    ensures var log := Execute(env, steps);
      var rows := ScopeRows(log.entries, Some(organization));
      var result := TenantReport(env, log.entries, log.checkpoints, organization);
      && result.Ok? && result.value.valid
      && result.value.violations == [] && result.value.checkpointViolations == []
      && result.value.verifiedEntries == result.value.headChainSeq == |rows|
  {
    ExecutionsAreGood(env, steps);
    var log := Execute(env, steps);
    var rows := ScopeRows(log.entries, Some(organization));
    var checkpoints := TenantCheckpoints(log.checkpoints, organization);
    SealedQueries(env, rows, checkpoints);
    ReportContents(env, organization, rows, checkpoints);
  }

  // ---------- verifications with something in between ----------

  lemma ExecuteNext(env: Env, steps: seq<Step>, step: Step)
    ensures Execute(env, steps + [step]) == Apply(env, Execute(env, steps), step)
  {
    assert (steps + [step])[..|steps|] == steps;
  }

  /** Rows are only ever added. */
  lemma {:induction false} RowsGrow(env: Env, before: seq<Step>, later: seq<Step>, scope: Option<string>)
    ensures ScopeRows(Execute(env, before).entries, scope) <= ScopeRows(Execute(env, before + later).entries, scope)
  {
    hide Execute, ScopeRows, Apply;
    if later == [] {
      assert before + later == before;
    } else {
      var n := |later| - 1;
      RowsGrow(env, before, later[..n], scope);
      assert before + later == before + later[..n] + [later[n]];
      ExecuteNext(env, before + later[..n], later[n]);
      StepAddsRows(env, Execute(env, before + later[..n]), later[n], scope);
    }
  }

  lemma StepAddsRows(env: Env, log: Log, step: Step, scope: Option<string>)
    ensures ScopeRows(log.entries, scope) <= ScopeRows(Apply(env, log, step).entries, scope)
  {
    hide Seal, ScopeRows, ReadOutcome, StampSigns, AlreadyAnchored;
    if step.Insert? {
      InsertExtends(env, log, step.body);
    }
  }

  /** A verification whose two queries have `later` between them, in any run: it never
      raises and never blames an entry, and it calls the sound chain valid if and only if no
      checkpoint that is there by the second query covers more entries than the first one
      read. */
  lemma VerificationExact(env: Env, before: seq<Step>, later: seq<Step>, organization: string)
    ensures var rows := OrderBy(ScopeRows(Execute(env, before).entries, Some(organization)), EntrySeq);
      var now := Execute(env, before + later);
      var result := ReadReport(env, organization, rows, now.checkpoints);
      && result.Ok? && result.value.violations == []
      && (result.value.valid <==> Covers(TenantCheckpoints(now.checkpoints, organization), |rows|))
  {
    hide Execute, ScopeRows, OrderBy, ChainReport, Sealed, CheckpointsSealed;
    ExecutionsAreGood(env, before);
    ExecutionsAreGood(env, before + later);
    RowsGrow(env, before, later, Some(organization));
    var rows, now := ScopeRows(Execute(env, before).entries, Some(organization)), Execute(env, before + later);
    TornReport(env, organization, rows, ScopeRows(now.entries, Some(organization)),
      TenantCheckpoints(now.checkpoints, organization));
  }

  /** A checkpoint call is refused, in any reachable state, exactly if by its second query a
      checkpoint covers more than its first one read; and then as for a broken chain. */
  lemma RefusedExactly(env: Env, steps: seq<Step>, call: nat)
    requires call < |Execute(env, steps).reading|
    ensures var log := Execute(env, steps);
      var r, outcome := log.reading[call], ReadOutcome(env, log, call);
      && (outcome.Err? <==> !Covers(TenantCheckpoints(log.checkpoints, r.organization), |r.rows|))
      && (outcome.Err? ==> outcome == Err(ChainInvalid))
      && (outcome == Ok(None) <==> outcome.Ok? && r.rows == [] && !r.force)
  {
    hide Execute, ScopeRows, OrderBy, ChainReport, Sealed, CheckpointsSealed;
    ExecutionsAreGood(env, steps);
    var log := Execute(env, steps);
    var r := log.reading[call];
    TornReport(env, r.organization, r.rows, ScopeRows(log.entries, Some(r.organization)),
      TenantCheckpoints(log.checkpoints, r.organization));
  }

  // ---------- rows that the database rewrites ----------

  /** Deleting a user clears the reference in the rows that name the user. */
  function UserDeleted(user: string): AuditDoc -> AuditDoc {
    (doc: AuditDoc) => if doc.user == Some(user) then doc.(user := None) else doc
  }

  /** In every reachable state: after a user is deleted, the tenant's report is valid exactly
      if no entry of the tenant names that user; or two documents collide. */
  lemma UserDeletionExact(env: Env, steps: seq<Step>, organization: string, user: string)
    ensures var log := Execute(env, steps);
      var rows := ScopeRows(log.entries, Some(organization));
      var read := AsRead(rows, UserDeleted(user));
      var result := ReadReport(env, organization, read, log.checkpoints);
      || ((result.Ok? && result.value.valid) <==> (forall i :: 0 <= i < |rows| ==> rows[i].doc.user != Some(user)))
      || Collides(env.sha, EntryInputs(rows) + EntryInputs(read))
  {
    hide Execute, ScopeRows, ChainReport, Sealed, CheckpointsSealed, Collides, EntryInputs, OrderBy;
    ExecutionsAreGood(env, steps);
    var log := Execute(env, steps);
    var rows, checkpoints :=
      ScopeRows(log.entries, Some(organization)), TenantCheckpoints(log.checkpoints, organization);
    SealedQueries(env, rows, checkpoints);
    ReadBackExact(env, organization, rows, checkpoints, UserDeleted(user));
    var read := AsRead(rows, UserDeleted(user));
    assert forall i :: 0 <= i < |rows| ==> (read[i].doc == rows[i].doc <==> rows[i].doc.user != Some(user));
  }
}
