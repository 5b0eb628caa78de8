/** Checkpoint calls (`create_organization_audit_checkpoint` of
    apps/core/audit_chain.py) in runs of the audit log: what one call does, what
    calls keep to that do not overlap, and what can happen to calls that do. */
module AuditCalls {
  import opened Hashing
  import opened MerkleTree
  import opened AuditChain
  import opened AuditLog
  import opened AuditProofs
  import opened Sequences
  import opened Wrappers

  // ---------- what a stored checkpoint says ----------

  /** The columns of a checkpoint of the first `c` entries, whatever call it comes from. */
  ghost predicate SaysAllOf(sha: Sha, rows: seq<Entry>, doc: CheckpointDoc) {
    var c := doc.coveredUpToSeq;
    && c <= |rows|
    && doc.verifiedEntries == c
    && doc.headHash == PrevHash(rows, c)
    && doc.manifestDigest == Hex(sha(ManifestJson(ManifestDoc(doc.organization, c, PrevHash(rows, c), true))))
    && doc.merkleRoot == Some(Hex(MerkleRoot(sha, Digests(sha, rows)[..c])))
  }

  ghost predicate AllSaid(env: Env, log: Log) {
    forall k :: k in log.checkpoints ==>
      SaysAllOf(env.sha, ScopeRows(log.entries, Some(k.doc.organization)), k.doc)
  }

  lemma SaidOfMore(sha: Sha, rows: seq<Entry>, more: seq<Entry>, doc: CheckpointDoc)
    requires rows <= more && SaysAllOf(sha, rows, doc)
    ensures SaysAllOf(sha, more, doc)
  {
    hide MerkleRoot;
    var c := doc.coveredUpToSeq;
    assert Digests(sha, rows)[..c] == Digests(sha, more)[..c];
  }

  lemma MintSays(env: Env, latest: Option<Checkpoint>, rows: seq<Entry>, report: Report, stamp: Stamp)
    requires Describes(env.sha, rows, report)
    ensures SaysAllOf(env.sha, rows, Mint(env, latest, report, stamp).doc)
  {
    hide MerkleRoot;
  }

  /** In every reachable state every stored checkpoint says of its tenant's chain exactly how
      many entries it covers, the last one's hash, the manifest of a valid report on them
      and their Merkle root. */
  lemma {:induction false} StoredCheckpointsSay(env: Env, steps: seq<Step>)
    ensures AllSaid(env, Execute(env, steps))
  {
    hide Execute, Apply, AllSaid;
    if steps == [] {
      NothingSaid(env);
    } else {
      var before, step := steps[..|steps| - 1], steps[|steps| - 1];
      StoredCheckpointsSay(env, before);
      ExecutionsAreGood(env, before);
      assert before + [step] == steps;
      ExecuteNext(env, before, step);
      StepKeepsSaid(env, Execute(env, before), step);
    }
  }

  lemma NothingSaid(env: Env)
    ensures AllSaid(env, Execute(env, []))
  {
  }

  lemma StepKeepsSaid(env: Env, log: Log, step: Step)
    requires AllSaid(env, log) && PendingDescribes(env, log)
    ensures AllSaid(env, Apply(env, log, step))
  {
    hide SaysAllOf, ScopeRows, Describes, Apply;
    var after := Apply(env, log, step);
    forall k | k in after.checkpoints
      ensures SaysAllOf(env.sha, ScopeRows(after.entries, Some(k.doc.organization)), k.doc)
    {
      var rows := ScopeRows(log.entries, Some(k.doc.organization));
      StepAddsRows(env, log, step, Some(k.doc.organization));
      if k !in log.checkpoints {
        var latest, report := NewCheckpoint(env, log, step, k);
        MintSays(env, latest, rows, report, step.stamp);
      }
      SaidOfMore(env.sha, rows, ScopeRows(after.entries, Some(k.doc.organization)), k.doc);
    }
  }

  /** A checkpoint that a step adds comes from a pending report of its tenant. */
  lemma NewCheckpoint(env: Env, log: Log, step: Step, k: Checkpoint)
    returns (latest: Option<Checkpoint>, report: Report)
    requires k in Apply(env, log, step).checkpoints && k !in log.checkpoints
    ensures step.CommitCheckpoint? && report in log.pending && report.organization == k.doc.organization
    ensures k == Mint(env, latest, report, step.stamp)
  {
    hide Mint, Latest, StampSigns, AlreadyAnchored, ReadOutcome, Seal, TenantCheckpoints, ScopeRows;
    assert step.CommitCheckpoint? && step.call < |log.pending|;
    report := log.pending[step.call];
    latest := Latest(TenantCheckpoints(log.checkpoints, report.organization), CheckpointSeq);
    MintedFrom(env, latest, report, step.stamp);
  }

  // ---------- what a call adds ----------

  /** The checkpoint that covers the same entries as `report` also names the same head. */
  lemma SameCoverageSameHead(env: Env, log: Log, report: Report, k: Checkpoint)
    requires AllSaid(env, log) && k in log.checkpoints && k.doc.organization == report.organization
    requires Describes(env.sha, ScopeRows(log.entries, Some(report.organization)), report)
    requires k.doc.coveredUpToSeq == report.headChainSeq
    ensures k.doc.headHash == report.headHash
  {
    hide MerkleRoot;
  }

  /** Whether a tenant's checkpoints already end with one of `covered` entries. */
  predicate EndsWith(checkpoints: seq<Checkpoint>, covered: nat) {
    checkpoints != [] && checkpoints[|checkpoints| - 1].doc.coveredUpToSeq == covered
  }

  /** `later` are the checkpoints with one more, next in number and link, for the first
      `covered` entries of the organization. */
  ghost predicate OneMore(
    env: Env, log: Log, later: seq<Checkpoint>, organization: string, covered: nat, stamp: Stamp)
  {
    var rows, own := ScopeRows(log.entries, Some(organization)), TenantCheckpoints(log.checkpoints, organization);
    |later| == |log.checkpoints| + 1 && later[..|log.checkpoints|] == log.checkpoints &&
    var k := later[|log.checkpoints|];
    && k.doc.organization == organization && k.doc.coveredUpToSeq == covered && SaysAllOf(env.sha, rows, k.doc)
    && k.doc.checkpointSeq == |own| + 1 && k.doc.prevCheckpointHash == PrevCheckpointHash(own, |own|)
    && k.checkpointHash == Hex(CheckpointDigest(env.sha, k)) && k.signature == env.mac(CheckpointDigest(env.sha, k))
    && Authentic(env, k)
    && k.doc.id == stamp.id && k.doc.retentionUntil == stamp.retentionUntil && k.doc.createdAt == stamp.createdAt
    && (stamp.signature.Some? ==> k.asymmetricSignature == stamp.signature.value)
  }

  /** In every reachable state: the commit of a call, if it can go on, adds a checkpoint for
      its report exactly if it is forced, the tenant has none, or the tenant's last one
      covers another number of entries; otherwise it adds nothing.  In both cases the call
      is over. */
  lemma CommitExactly(env: Env, steps: seq<Step>, call: nat, force: bool, stamp: Stamp)
    requires var log := Execute(env, steps);
      call < |log.pending| &&
      var own, report := TenantCheckpoints(log.checkpoints, log.pending[call].organization), log.pending[call];
      force || !EndsWith(own, report.headChainSeq) ==> StampSigns(env, Latest(own, CheckpointSeq), report, stamp)
    ensures var log := Execute(env, steps);
      var after, report := Execute(env, steps + [CommitCheckpoint(call, force, stamp)]), log.pending[call];
      var own := TenantCheckpoints(log.checkpoints, report.organization);
      && after.entries == log.entries && after.reading == log.reading && after.pending == Without(log.pending, call)
      && if force || !EndsWith(own, report.headChainSeq)
         then OneMore(env, log, after.checkpoints, report.organization, report.headChainSeq, stamp)
         else after.checkpoints == log.checkpoints
  {
    hide Execute, Mint, Latest, StampSigns, Describes, ScopeRows, TenantCheckpoints, OneMore, Sealed, CheckpointsSealed,
         AlreadyAnchored;
    var log := Execute(env, steps);
    var report := log.pending[call];
    var own := TenantCheckpoints(log.checkpoints, report.organization);
    ExecutionsAreGood(env, steps);
    ExecuteNext(env, steps, CommitCheckpoint(call, force, stamp));
    AnchoredExactly(env, steps, call, force);
    if force || !EndsWith(own, report.headChainSeq) {
      MintIsOneMore(env, log, report, stamp);
    }
  }

  /** The test for an unchanged chain compares number and hash; the number is enough. */
  lemma AnchoredExactly(env: Env, steps: seq<Step>, call: nat, force: bool)
    requires call < |Execute(env, steps).pending|
    ensures var log := Execute(env, steps);
      var report := log.pending[call];
      var own := TenantCheckpoints(log.checkpoints, report.organization);
      AlreadyAnchored(Latest(own, CheckpointSeq), report, force) <==> !force && EndsWith(own, report.headChainSeq)
  {
    hide Execute, Latest, Describes, ScopeRows, TenantCheckpoints, Sealed, CheckpointsSealed;
    var log := Execute(env, steps);
    var report := log.pending[call];
    var own := TenantCheckpoints(log.checkpoints, report.organization);
    StoredCheckpointsSay(env, steps);
    ExecutionsAreGood(env, steps);
    SealedQueries(env, ScopeRows(log.entries, Some(report.organization)), own);
    if EndsWith(own, report.headChainSeq) {
      TenantCheckpointsAreRows(log.checkpoints, report.organization);
      OwnCheckpoints(log.checkpoints, report.organization);
      SameCoverageSameHead(env, log, report, own[|own| - 1]);
    }
  }

  lemma MintIsOneMore(env: Env, log: Log, report: Report, stamp: Stamp)
    requires Good(env, log) && Describes(env.sha, ScopeRows(log.entries, Some(report.organization)), report)
    requires var latest := Latest(TenantCheckpoints(log.checkpoints, report.organization), CheckpointSeq);
      StampSigns(env, latest, report, stamp)
    ensures var latest := Latest(TenantCheckpoints(log.checkpoints, report.organization), CheckpointSeq);
      OneMore(env, log, log.checkpoints + [Mint(env, latest, report, stamp)], report.organization,
              report.headChainSeq, stamp)
  {
    hide Mint, Latest, StampSigns, Describes, ScopeRows, TenantCheckpoints, Authentic, Sealed, SaysAllOf, Anchors;
    var rows, own :=
      ScopeRows(log.entries, Some(report.organization)), TenantCheckpoints(log.checkpoints, report.organization);
    var latest := Latest(own, CheckpointSeq);
    SealedQueries(env, rows, own);
    MintSays(env, latest, rows, report, stamp);
    MintFields(env, latest, rows, report, stamp);
    MintedFrom(env, latest, report, stamp);
    MintStamped(env, latest, report, stamp);
    assert own != [] ==> CheckpointSealedAt(env, rows, own, |own| - 1);
  }

  lemma {:induction false} OwnCheckpoints(checkpoints: seq<Checkpoint>, organization: string)
    ensures forall k :: k in TenantCheckpoints(checkpoints, organization) ==> k.doc.organization == organization
  {
    if checkpoints != [] {
      OwnCheckpoints(checkpoints[..|checkpoints| - 1], organization);
    }
  }

  lemma MintStamped(env: Env, latest: Option<Checkpoint>, report: Report, stamp: Stamp)
    requires StampSigns(env, latest, report, stamp)
    ensures var k := Mint(env, latest, report, stamp);
      && k.doc.id == stamp.id && k.doc.retentionUntil == stamp.retentionUntil && k.doc.createdAt == stamp.createdAt
      && (stamp.signature.Some? ==> k.asymmetricSignature == stamp.signature.value)
  {
  }

  /** The steps of a checkpoint call that nothing interrupts. */
  function CallSteps(log: Log, organization: string, force: bool, stamp: Stamp): seq<Step> {
    [ReadEntries(organization, force)] + [ReadCheckpoints(|log.reading|)]
    + [CommitCheckpoint(|log.pending|, force, stamp)]
  }

  /** Whether a call that reads `count` entries has something to anchor. */
  predicate Anchorable(own: seq<Checkpoint>, count: nat, force: bool) {
    force || (count > 0 && !EndsWith(own, count))
  }

  /** The reads of an uninterrupted call: it is never refused, and goes on with a report on
      all entries unless there are none and it is not forced. */
  lemma CallReads(env: Env, steps: seq<Step>, organization: string, force: bool)
    ensures var log := Execute(env, steps);
      var rows := ScopeRows(log.entries, Some(organization));
      var result := TenantReport(env, log.entries, log.checkpoints, organization);
      var read := Execute(env, steps + [ReadEntries(organization, force)] + [ReadCheckpoints(|log.reading|)]);
      && result.Ok? && result.value.organization == organization && result.value.headChainSeq == |rows|
      && read == if rows == [] && !force then log else log.(pending := log.pending + [result.value])
  {
    hide Execute, ScopeRows, OrderBy, ChainReport, Sealed, CheckpointsSealed, TenantCheckpoints;
    var log := Execute(env, steps);
    RunSafety(env, steps, organization);
    OrderedCount(env, steps, organization);
    var rows := OrderBy(ScopeRows(log.entries, Some(organization)), EntrySeq);
    var own := OrderBy(TenantCheckpoints(log.checkpoints, organization), CheckpointSeq);
    ReportNamesTenant(env, organization, rows, own);
    ExecuteNext(env, steps, ReadEntries(organization, force));
    ExecuteNext(env, steps + [ReadEntries(organization, force)], ReadCheckpoints(|log.reading|));
    assert Without(log.reading + [Reading(organization, force, rows)], |log.reading|) == log.reading;
  }

  /** What a checkpoint call that nothing interrupts does in every reachable state: it adds
      one checkpoint of all entries exactly if it is forced, or there are entries and the
      tenant's last checkpoint does not cover just them; otherwise it changes nothing. */
  lemma CallExactly(env: Env, steps: seq<Step>, organization: string, force: bool, stamp: Stamp)
    requires var log := Execute(env, steps);
      var own := TenantCheckpoints(log.checkpoints, organization);
      var result := TenantReport(env, log.entries, log.checkpoints, organization);
      result.Ok? && Anchorable(own, |ScopeRows(log.entries, Some(organization))|, force) ==>
        StampSigns(env, Latest(own, CheckpointSeq), result.value, stamp)
    ensures var log := Execute(env, steps);
      var after := Execute(env, steps + CallSteps(log, organization, force, stamp));
      var own := TenantCheckpoints(log.checkpoints, organization);
      var count := |ScopeRows(log.entries, Some(organization))|;
      && after == log.(checkpoints := after.checkpoints)
      && if Anchorable(own, count, force)
         then OneMore(env, log, after.checkpoints, organization, count, stamp)
         else after.checkpoints == log.checkpoints
  {
    hide Execute, ScopeRows, TenantReport, Latest, StampSigns, OneMore, TenantCheckpoints;
    var log := Execute(env, steps);
    var commit := CommitCheckpoint(|log.pending|, force, stamp);
    var begun := steps + [ReadEntries(organization, force)] + [ReadCheckpoints(|log.reading|)];
    CallReads(env, steps, organization, force);
    assert steps + CallSteps(log, organization, force, stamp) == begun + [commit];
    if ScopeRows(log.entries, Some(organization)) == [] && !force {
      ExecuteNext(env, begun, commit);
      NoSuchCall(env, log, |log.pending|, force, stamp);
    } else {
      var report := TenantReport(env, log.entries, log.checkpoints, organization).value;
      CommitExactly(env, begun, |log.pending|, force, stamp);
      assert Without(log.pending + [report], |log.pending|) == log.pending;
      OneMoreAgain(env, log, Execute(env, begun), Execute(env, begun + [commit]).checkpoints, organization,
        report.headChainSeq, stamp);
    }
  }

  lemma OneMoreAgain(
    env: Env, log: Log, same: Log, later: seq<Checkpoint>, organization: string, covered: nat, stamp: Stamp)
    requires same.entries == log.entries && same.checkpoints == log.checkpoints
    ensures OneMore(env, log, later, organization, covered, stamp)
       <==> OneMore(env, same, later, organization, covered, stamp)
  {
  }

  lemma OneMoreEnds(
    env: Env, log: Log, later: seq<Checkpoint>, organization: string, covered: nat, stamp: Stamp)
    requires OneMore(env, log, later, organization, covered, stamp)
    ensures EndsWith(TenantCheckpoints(later, organization), covered)
  {
    hide SaysAllOf, Authentic;
  }

  /** Repeating a call that was not forced changes nothing, whatever the second one's
      identifier, dates and signature. */
  lemma CallTwice(env: Env, steps: seq<Step>, organization: string, first: Stamp, second: Stamp)
    requires var log := Execute(env, steps);
      var own := TenantCheckpoints(log.checkpoints, organization);
      var result := TenantReport(env, log.entries, log.checkpoints, organization);
      result.Ok? ==> StampSigns(env, Latest(own, CheckpointSeq), result.value, first)
    ensures var once := steps + CallSteps(Execute(env, steps), organization, false, first);
      Execute(env, once + CallSteps(Execute(env, once), organization, false, second)) == Execute(env, once)
  {
    hide Execute, ScopeRows, TenantReport, Latest, StampSigns, OneMore, TenantCheckpoints;
    var log := Execute(env, steps);
    var once := steps + CallSteps(log, organization, false, first);
    var count := |ScopeRows(log.entries, Some(organization))|;
    CallExactly(env, steps, organization, false, first);
    if Anchorable(TenantCheckpoints(log.checkpoints, organization), count, false) {
      OneMoreEnds(env, log, Execute(env, once).checkpoints, organization, count, first);
    }
    CallExactly(env, once, organization, false, second);
  }

  // ---------- serial and interleaved checkpoint calls ----------

  /** No checkpoint call of the organization is unfinished. */
  ghost predicate NoCallOf(log: Log, organization: string) {
    && (forall i :: 0 <= i < |log.reading| ==> log.reading[i].organization != organization)
    && (forall i :: 0 <= i < |log.pending| ==> log.pending[i].organization != organization)
  }

  /** No checkpoint call of a tenant starts while another one of it is unfinished. */
  ghost predicate Serial(env: Env, steps: seq<Step>) {
    steps == [] ||
    var before, step := steps[..|steps| - 1], steps[|steps| - 1];
    && Serial(env, before)
    && (step.ReadEntries? ==> NoCallOf(Execute(env, before), step.organization))
  }

  ghost predicate CoverageGrows(checkpoints: seq<Checkpoint>) {
    forall i, j :: 0 <= i <= j < |checkpoints| ==>
      checkpoints[i].doc.coveredUpToSeq <= checkpoints[j].doc.coveredUpToSeq
  }

  /** An unfinished call of a tenant is ahead of all its checkpoints. */
  ghost predicate Ahead(log: Log) {
    && (forall i :: 0 <= i < |log.reading| ==>
          Covers(TenantCheckpoints(log.checkpoints, log.reading[i].organization), |log.reading[i].rows|))
    && (forall i :: 0 <= i < |log.pending| ==>
          Covers(TenantCheckpoints(log.checkpoints, log.pending[i].organization), log.pending[i].headChainSeq))
  }

  /** At most one call per tenant is unfinished. */
  ghost predicate Alone(log: Log) {
    && (forall i, j :: 0 <= i < j < |log.reading| ==> log.reading[i].organization != log.reading[j].organization)
    && (forall i, j :: 0 <= i < j < |log.pending| ==> log.pending[i].organization != log.pending[j].organization)
    && (forall i, j :: 0 <= i < |log.reading| && 0 <= j < |log.pending| ==>
          log.reading[i].organization != log.pending[j].organization)
  }

  ghost predicate AllCoverageGrows(log: Log) {
    forall org :: CoverageGrows(TenantCheckpoints(log.checkpoints, org))
  }

  lemma WithoutItem<T>(items: seq<T>, i: nat)
    requires i < |items|
    ensures |Without(items, i)| == |items| - 1
    ensures forall j :: 0 <= j < |items| - 1 ==> Without(items, i)[j] == items[if j < i then j else j + 1]
  {
  }

  /** A commit either changes no checkpoints, or adds one for its report's tenant. */
  lemma CommitAdds(env: Env, log: Log, call: nat, force: bool, stamp: Stamp) returns (added: Option<Checkpoint>)
    requires call < |log.pending|
    ensures var after := Apply(env, log, CommitCheckpoint(call, force, stamp)); var report := log.pending[call];
      && after.reading == log.reading
      && (after == log || after.pending == Without(log.pending, call))
      && (added == None ==> after.checkpoints == log.checkpoints)
      && (added.Some? ==>
            after.pending == Without(log.pending, call) && added.value.doc.coveredUpToSeq == report.headChainSeq)
    ensures added.Some? ==>
              forall org :: TenantCheckpoints(Apply(env, log, CommitCheckpoint(call, force, stamp)).checkpoints, org) ==
                TenantCheckpoints(log.checkpoints, org)
                + (if org == log.pending[call].organization then [added.value] else [])
  {
    hide Mint, Latest, StampSigns, AlreadyAnchored;
    var after := Apply(env, log, CommitCheckpoint(call, force, stamp));
    var report := log.pending[call];
    added := None;
    if after.checkpoints != log.checkpoints {
      var latest := Latest(TenantCheckpoints(log.checkpoints, report.organization), CheckpointSeq);
      var minted := Mint(env, latest, report, stamp);
      MintedFrom(env, latest, report, stamp);
      assert after.checkpoints == log.checkpoints + [minted];
      assert after.checkpoints[..|log.checkpoints|] == log.checkpoints;
      added := Some(minted);
    }
  }

  lemma MintedFrom(env: Env, latest: Option<Checkpoint>, report: Report, stamp: Stamp)
    ensures var minted := Mint(env, latest, report, stamp);
      minted.doc.organization == report.organization && minted.doc.coveredUpToSeq == report.headChainSeq
  {
  }

  /** A report ahead of all its tenant's checkpoints extends their coverage. */
  lemma CoverageExtended(checkpoints: seq<Checkpoint>, next: Checkpoint)
    requires CoverageGrows(checkpoints) && Covers(checkpoints, next.doc.coveredUpToSeq)
    ensures CoverageGrows(checkpoints + [next])
  {
  }

  lemma CommitKeepsLead(env: Env, log: Log, call: nat, force: bool, stamp: Stamp)
    requires Ahead(log) && Alone(log) && AllCoverageGrows(log)
    ensures var after := Apply(env, log, CommitCheckpoint(call, force, stamp));
      Ahead(after) && Alone(after) && AllCoverageGrows(after)
  {
    hide Apply, TenantCheckpoints, Without, Covers, CoverageGrows;
    if call < |log.pending| {
      var after, report := Apply(env, log, CommitCheckpoint(call, force, stamp)), log.pending[call];
      var added := CommitAdds(env, log, call, force, stamp);
      WithoutItem(log.pending, call);
      if added.Some? {
        CoverageExtended(TenantCheckpoints(log.checkpoints, report.organization), added.value);
        forall org | org != report.organization
          ensures TenantCheckpoints(after.checkpoints, org) == TenantCheckpoints(log.checkpoints, org)
        {
          assert TenantCheckpoints(log.checkpoints, org) + [] == TenantCheckpoints(log.checkpoints, org);
        }
      }
    } else {
      NoSuchCall(env, log, call, force, stamp);
    }
  }

  lemma NoSuchCall(env: Env, log: Log, call: nat, force: bool, stamp: Stamp)
    requires call >= |log.pending|
    ensures Apply(env, log, CommitCheckpoint(call, force, stamp)) == log
  {
  }

  /** What a call that is not refused goes on with. */
  lemma ReadCounts(env: Env, steps: seq<Step>, call: nat)
    requires call < |Execute(env, steps).reading|
    ensures var log := Execute(env, steps);
      var r, outcome := log.reading[call], ReadOutcome(env, log, call);
      && (Covers(TenantCheckpoints(log.checkpoints, r.organization), |r.rows|) && (r.rows != [] || r.force) ==>
            outcome.Ok? && outcome.value.Some?)
      && (outcome.Ok? && outcome.value.Some? ==>
            outcome.value.value.headChainSeq == |r.rows| && outcome.value.value.organization == r.organization)
  {
    hide Execute, ScopeRows, OrderBy, ChainReport, Sealed, CheckpointsSealed, Covers;
    ExecutionsAreGood(env, steps);
    var log := Execute(env, steps);
    var r := log.reading[call];
    TornReport(env, r.organization, r.rows, ScopeRows(log.entries, Some(r.organization)),
      TenantCheckpoints(log.checkpoints, r.organization));
  }

  lemma ReadKeepsLead(env: Env, steps: seq<Step>, call: nat)
    requires Ahead(Execute(env, steps)) && Alone(Execute(env, steps))
    ensures var after := Apply(env, Execute(env, steps), ReadCheckpoints(call));
      Ahead(after) && Alone(after) && after.checkpoints == Execute(env, steps).checkpoints
  {
    hide Execute, ReadOutcome, TenantCheckpoints, Covers, Without;
    var log := Execute(env, steps);
    if call < |log.reading| {
      ReadCounts(env, steps, call);
      WithoutItem(log.reading, call);
    }
  }

  lemma StartKeepsLead(env: Env, steps: seq<Step>, organization: string, force: bool)
    requires Ahead(Execute(env, steps)) && Alone(Execute(env, steps)) && NoCallOf(Execute(env, steps), organization)
    ensures var after := Apply(env, Execute(env, steps), ReadEntries(organization, force));
      Ahead(after) && Alone(after) && after.checkpoints == Execute(env, steps).checkpoints
  {
    hide Execute, ScopeRows, TenantCheckpoints, Sealed, CheckpointsSealed, OrderBy, Covers;
    ExecutionsAreGood(env, steps);
    var log := Execute(env, steps);
    var rows := ScopeRows(log.entries, Some(organization));
    var checkpoints := TenantCheckpoints(log.checkpoints, organization);
    SealedQueries(env, rows, checkpoints);
    SealedCover(env, rows, checkpoints);
  }

  lemma SealedCover(env: Env, rows: seq<Entry>, checkpoints: seq<Checkpoint>)
    requires CheckpointsSealed(env, rows, checkpoints)
    ensures Covers(checkpoints, |rows|)
  {
    hide Authentic, MerkleRoot;
    forall i | 0 <= i < |checkpoints| ensures checkpoints[i].doc.coveredUpToSeq <= |rows| {
      assert CheckpointSealedAt(env, rows, checkpoints, i);
    }
  }

  lemma DropKeepsLead(env: Env, log: Log, step: Step)
    requires step.Insert? || step.AbandonRead? || step.AbandonCheckpoint?
    requires Ahead(log) && Alone(log)
    ensures var after := Apply(env, log, step);
      Ahead(after) && Alone(after) && after.checkpoints == log.checkpoints
  {
    hide Seal, ScopeRows, TenantCheckpoints, Covers, Without;
    match step
    case AbandonRead(call) => if call < |log.reading| { WithoutItem(log.reading, call); }
    case AbandonCheckpoint(call) => if call < |log.pending| { WithoutItem(log.pending, call); }
    case _ =>
  }

  lemma {:induction false} SerialLead(env: Env, steps: seq<Step>)
    requires Serial(env, steps)
    ensures var log := Execute(env, steps); Ahead(log) && Alone(log) && AllCoverageGrows(log)
  {
    hide Apply, Ahead, Alone, NoCallOf;
    if steps == [] {
      NothingUnfinished(env);
    } else {
      var prefix, step := steps[..|steps| - 1], steps[|steps| - 1];
      SerialLead(env, prefix);
      match step
      case CommitCheckpoint(call, force, stamp) => CommitKeepsLead(env, Execute(env, prefix), call, force, stamp);
      case ReadEntries(organization, force) => StartKeepsLead(env, prefix, organization, force);
      case ReadCheckpoints(call) => ReadKeepsLead(env, prefix, call);
      case _ => DropKeepsLead(env, Execute(env, prefix), step);
    }
  }

  lemma NothingUnfinished(env: Env)
    ensures var log := Execute(env, []); Ahead(log) && Alone(log) && AllCoverageGrows(log)
  {
  }

  /** When a tenant's checkpoint calls do not overlap, none of them is refused. */
  lemma SerialCallsSucceed(env: Env, steps: seq<Step>, call: nat)
    requires Serial(env, steps) && call < |Execute(env, steps).reading|
    ensures ReadOutcome(env, Execute(env, steps), call).Ok?
  {
    hide Execute, ReadOutcome, Covers, TenantCheckpoints, Alone;
    SerialLead(env, steps);
    RefusedExactly(env, steps, call);
  }

  /** When a tenant's checkpoint calls do not overlap, coverage never shrinks, so
      every consistency bundle between its checkpoints verifies. */
  lemma SerialBundlesVerify(
    env: Env, steps: seq<Step>, later: seq<Step>, organization: string, from: Option<nat>, to: Option<nat>, i: nat,
    j: nat)
    requires Serial(env, steps)
    requires i <= j < |TenantCheckpoints(Execute(env, steps).checkpoints, organization)|
    requires Asks(from, 0, i) && Asks(to, |TenantCheckpoints(Execute(env, steps).checkpoints, organization)| - 1, j)
    ensures var rows := OrderBy(ScopeRows(Execute(env, steps + later).entries, Some(organization)), EntrySeq);
      var checkpoints := OrderBy(TenantCheckpoints(Execute(env, steps).checkpoints, organization), CheckpointSeq);
      var bundle := BuildConsistencyBundle(env.sha, rows, checkpoints, from, to);
      bundle.Ok? && bundle.value.report.valid
  {
    hide BuildConsistencyBundle, Execute, ScopeRows, TenantCheckpoints, OrderBy, Sealed, CheckpointsSealed;
    ConsistencyBundlesVerify(env, steps, later, organization, from, to, i, j);
    RowsReadLater(env, steps, later, organization);
    SerialLead(env, steps);
    assert CoverageGrows(TenantCheckpoints(Execute(env, steps).checkpoints, organization));
  }

  // ---------- calls without force ----------

  ghost predicate CoverageRises(checkpoints: seq<Checkpoint>) {
    forall i, j :: 0 <= i < j < |checkpoints| ==>
      checkpoints[i].doc.coveredUpToSeq < checkpoints[j].doc.coveredUpToSeq
  }

  /** No commit is forced. */
  predicate Unforced(steps: seq<Step>) {
    forall step :: step in steps && step.CommitCheckpoint? ==> !step.force
  }

  /** When a tenant's calls neither overlap nor are forced, each of its checkpoints covers
      more entries than the one before: none is a duplicate. */
  lemma {:induction false} SerialCoverageRises(env: Env, steps: seq<Step>, organization: string)
    requires Serial(env, steps) && Unforced(steps)
    ensures CoverageRises(TenantCheckpoints(Execute(env, steps).checkpoints, organization))
  {
    hide Execute, Apply, TenantCheckpoints, CoverageRises;
    if steps == [] {
      NothingRises(env, organization);
    } else {
      var before, step := steps[..|steps| - 1], steps[|steps| - 1];
      SerialCoverageRises(env, before, organization);
      assert before + [step] == steps;
      ExecuteNext(env, before, step);
      if step.CommitCheckpoint? {
        CommitRises(env, before, step.call, step.stamp, organization);
      } else {
        OthersAddNothing(env, Execute(env, before), step);
      }
    }
  }

  lemma NothingRises(env: Env, organization: string)
    ensures CoverageRises(TenantCheckpoints(Execute(env, []).checkpoints, organization))
  {
  }

  lemma OthersAddNothing(env: Env, log: Log, step: Step)
    requires !step.CommitCheckpoint?
    ensures Apply(env, log, step).checkpoints == log.checkpoints
  {
    hide ReadOutcome, Seal, ScopeRows;
  }

  lemma CommitRises(env: Env, steps: seq<Step>, call: nat, stamp: Stamp, organization: string)
    requires Serial(env, steps) && CoverageRises(TenantCheckpoints(Execute(env, steps).checkpoints, organization))
    ensures var after := Apply(env, Execute(env, steps), CommitCheckpoint(call, false, stamp));
      CoverageRises(TenantCheckpoints(after.checkpoints, organization))
  {
    hide Execute, Apply, Latest, StampSigns, OneMore, TenantCheckpoints, CoverageRises, Covers, EndsWith;
    var log := Execute(env, steps);
    if call >= |log.pending| {
      NoSuchCall(env, log, call, false, stamp);
    } else {
      var report := log.pending[call];
      var own := TenantCheckpoints(log.checkpoints, report.organization);
      SerialLead(env, steps);
      ExecuteNext(env, steps, CommitCheckpoint(call, false, stamp));
      if EndsWith(own, report.headChainSeq) {
        CommitExactly(env, steps, call, false, stamp);
      } else {
        var added := CommitAdds(env, log, call, false, stamp);
        if added.Some? && report.organization == organization {
          RisesWith(own, added.value);
        } else if added.Some? {
          var others := TenantCheckpoints(log.checkpoints, organization);
          assert others + [] == others;
        }
      }
    }
  }

  lemma RisesWith(own: seq<Checkpoint>, next: Checkpoint)
    requires CoverageRises(own) && Covers(own, next.doc.coveredUpToSeq) && !EndsWith(own, next.doc.coveredUpToSeq)
    ensures CoverageRises(own + [next])
  {
    var n := |own| - 1;
    assert forall i :: 0 <= i < n ==> own[i].doc.coveredUpToSeq < own[n].doc.coveredUpToSeq;
  }

  // ---------- overlapping calls ----------

  /** An insert and a first query, twice: two calls of which the second has read more. */
  function TwoReads(organization: string, body: AuditDoc): seq<Step> {
    [Insert(body)] + [ReadEntries(organization, false)] + [Insert(body)] + [ReadEntries(organization, false)]
  }

  lemma TwoCallsReading(env: Env, organization: string, body: AuditDoc)
    requires body.organization == Some(organization)
    ensures var log := Execute(env, TwoReads(organization, body));
      && log.checkpoints == [] && log.pending == [] && |log.reading| == 2
      && |log.reading[0].rows| == 1 && |log.reading[1].rows| == 2
      && log.reading[0].organization == log.reading[1].organization == organization
  {
    hide Seal, ScopeRows, Execute, OrderBy;
    var insert, read := Insert(body), ReadEntries(organization, false);
    var s1, s2, s3 := [insert], [insert] + [read], [insert] + [read] + [insert];
    assert s1 == [] + [insert];
    NothingYet(env, Some(organization));
    ExecuteNext(env, [], insert);
    InsertAddsRow(env, Execute(env, []), body);
    ExecuteNext(env, s1, read);
    OrderedCount(env, s1, organization);
    ExecuteNext(env, s2, insert);
    InsertAddsRow(env, Execute(env, s2), body);
    ExecuteNext(env, s3, read);
    OrderedCount(env, s3, organization);
  }

  lemma OrderedCount(env: Env, steps: seq<Step>, organization: string)
    ensures var rows := ScopeRows(Execute(env, steps).entries, Some(organization)); OrderBy(rows, EntrySeq) == rows
  {
    hide Execute, ScopeRows, OrderBy, Sealed, CheckpointsSealed;
    ExecutionsAreGood(env, steps);
    var log := Execute(env, steps);
    SealedQueries(env, ScopeRows(log.entries, Some(organization)), TenantCheckpoints(log.checkpoints, organization));
  }

  lemma NothingYet(env: Env, scope: Option<string>)
    ensures Execute(env, []) == Log([], [], [], []) && ScopeRows([], scope) == []
  {
  }

  lemma InsertAddsRow(env: Env, log: Log, body: AuditDoc)
    ensures var after := Apply(env, log, Insert(body));
      && |ScopeRows(after.entries, body.organization)| == |ScopeRows(log.entries, body.organization)| + 1
      && after.checkpoints == log.checkpoints && after.reading == log.reading && after.pending == log.pending
  {
    hide Seal, ScopeRows;
    InsertExtends(env, log, body);
  }

  /** The call at index `call` passes its verification, no checkpoint being there yet. */
  lemma FirstPasses(env: Env, steps: seq<Step>, call: nat)
    requires var log := Execute(env, steps);
      call < |log.reading| && log.reading[call].rows != [] && log.checkpoints == []
    ensures var log, after := Execute(env, steps), Execute(env, steps + [ReadCheckpoints(call)]);
      && after.entries == log.entries && after.checkpoints == [] && after.reading == Without(log.reading, call)
      && |after.pending| == |log.pending| + 1 && after.pending[..|log.pending|] == log.pending
      && after.pending[|log.pending|].headChainSeq == |log.reading[call].rows|
      && after.pending[|log.pending|].organization == log.reading[call].organization
  {
    hide Execute, ReadOutcome;
    ReadCounts(env, steps, call);
    ExecuteNext(env, steps, ReadCheckpoints(call));
  }

  /** The second call overtakes the first: it verifies and commits in between the queries of
      the first. */
  function Overtaking(organization: string, body: AuditDoc, stamp: Stamp): seq<Step> {
    TwoReads(organization, body) + [ReadCheckpoints(1)] + [CommitCheckpoint(0, false, stamp)]
  }

  /** Then the first call is refused as if the chain were broken, although the chain is
      sound: its second query reads a checkpoint of an entry that its first did not. */
  lemma SoundChainRefused(env: Env, organization: string, body: AuditDoc, stamp: Stamp)
    requires body.organization == Some(organization) && stamp.signature == None
    ensures var log := Execute(env, Overtaking(organization, body, stamp));
      && log.reading != [] && ReadOutcome(env, log, 0) == Err(ChainInvalid)
      && TenantReport(env, log.entries, log.checkpoints, organization).Ok?
      && TenantReport(env, log.entries, log.checkpoints, organization).value.valid
  {
    hide Execute, Mint, ReadOutcome, ChainReport, OrderBy, ScopeRows;
    TwoCallsReading(env, organization, body);
    var s4 := TwoReads(organization, body);
    var s5 := s4 + [ReadCheckpoints(1)];
    FirstPasses(env, s4, 1);
    FirstCommit(env, s5, 0, stamp);
    var log := Execute(env, Overtaking(organization, body, stamp));
    RefusedExactly(env, Overtaking(organization, body, stamp), 0);
    RunSafety(env, Overtaking(organization, body, stamp), organization);
  }

  /** The first commit of all, unsigned: its checkpoint covers what its call has read. */
  lemma FirstCommit(env: Env, steps: seq<Step>, call: nat, stamp: Stamp)
    requires var log := Execute(env, steps); call < |log.pending| && log.checkpoints == []
    requires stamp.signature == None
    ensures var log, after := Execute(env, steps), Execute(env, steps + [CommitCheckpoint(call, false, stamp)]);
      var checkpoints := TenantCheckpoints(after.checkpoints, log.pending[call].organization);
      && after.entries == log.entries && after.reading == log.reading && after.pending == Without(log.pending, call)
      && |after.checkpoints| == 1 && checkpoints == after.checkpoints
      && checkpoints[0].doc.coveredUpToSeq == log.pending[call].headChainSeq
  {
    hide Execute, Mint;
    var log := Execute(env, steps);
    ExecuteNext(env, steps, CommitCheckpoint(call, false, stamp));
    MintedFrom(env, None, log.pending[call], stamp);
    assert [Mint(env, None, log.pending[call], stamp)][..0] == [];
  }

  /** Two calls that have both verified commit in the opposite order. */
  function Swapped(organization: string, body: AuditDoc, stamp: Stamp): seq<Step> {
    TwoReads(organization, body) + [ReadCheckpoints(0)] + [ReadCheckpoints(0)]
    + [CommitCheckpoint(1, false, stamp)] + [CommitCheckpoint(0, false, stamp)]
  }

  /** Then coverage shrinks, from two entries to one, although the chain stays sound:
      without the serial hypothesis consistency bundles can be refused. */
  lemma OvertakingShrinksCoverage(env: Env, organization: string, body: AuditDoc, stamp: Stamp)
    requires body.organization == Some(organization) && stamp.signature == None
    ensures var log := Execute(env, Swapped(organization, body, stamp));
      var checkpoints := TenantCheckpoints(log.checkpoints, organization);
      |checkpoints| == 2 && checkpoints[0].doc.coveredUpToSeq == 2 && checkpoints[1].doc.coveredUpToSeq == 1
  {
    hide Execute, Mint, ReadOutcome;
    TwoCallsReading(env, organization, body);
    var s4 := TwoReads(organization, body);
    var s6 := s4 + [ReadCheckpoints(0)] + [ReadCheckpoints(0)];
    FirstPasses(env, s4, 0);
    FirstPasses(env, s4 + [ReadCheckpoints(0)], 0);
    FirstCommit(env, s6, 1, stamp);
    SecondCommit(env, s6 + [CommitCheckpoint(1, false, stamp)], 0, stamp);
  }

  lemma SecondCommit(env: Env, steps: seq<Step>, call: nat, stamp: Stamp)
    requires var log := Execute(env, steps);
      && call < |log.pending| && |log.checkpoints| == 1
      && log.checkpoints == TenantCheckpoints(log.checkpoints, log.pending[call].organization)
      && log.checkpoints[0].doc.coveredUpToSeq != log.pending[call].headChainSeq
    requires stamp.signature == None
    ensures var log, after := Execute(env, steps), Execute(env, steps + [CommitCheckpoint(call, false, stamp)]);
      var checkpoints := TenantCheckpoints(after.checkpoints, log.pending[call].organization);
      && |checkpoints| == 2 && checkpoints[0] == log.checkpoints[0]
      && checkpoints[1].doc.coveredUpToSeq == log.pending[call].headChainSeq
  {
    hide Execute, Mint;
    var log := Execute(env, steps);
    var first := log.checkpoints[0];
    ExecuteNext(env, steps, CommitCheckpoint(call, false, stamp));
    assert log.checkpoints == [first] && [first][..0] == [];
    assert Latest([first], CheckpointSeq) == Some(first);
    var second := Mint(env, Some(first), log.pending[call], stamp);
    MintedFrom(env, Some(first), log.pending[call], stamp);
    assert [first, second][..1] == [first] && [first] + [second] == [first, second];
  }
}
