/** The outbox table under one caller at a time: the loops of
    `drain_outbox_batch` and `prune_outbox_and_webhook_history` in
    apps/core/outbox.py, over rows that they update in place. */
module OutboxTable {
  import opened Arithmetic
  import opened Outbox
  import opened Sequences
  import opened Wrappers

  /** The first `n` items, or all of them. */
  function Take<T>(items: seq<T>, n: nat): (taken: seq<T>)
    ensures taken <= items && |taken| == MinInt(|items|, n)
  {
    if |items| <= n then items else items[..n]
  }

  /** The events a drain call may claim at `now`, oldest first: due ones and those
      whose lease has run out. */
  function Claimable(rows: map<EventId, Row>, order: seq<EventId>, now: int, only: Option<EventId>): seq<EventId> {
    if order == [] then
      []
    else
      var id := order[0];
      (if id in rows && Due(Reclaimed(rows[id], now), now) && (only == None || only == Some(id)) then [id] else [])
      + Claimable(rows, order[1..], now, only)
  }

  lemma {:induction false} ClaimableFacts(rows: map<EventId, Row>, order: seq<EventId>, now: int, only: Option<EventId>)
    requires Distinct(order)
    ensures var claimable := Claimable(rows, order, now, only);
      && Distinct(claimable)
      && forall id :: id in claimable <==>
           id in order && id in rows && Due(Reclaimed(rows[id], now), now) && (only == None || only == Some(id))
  {
    if order != [] {
      assert Distinct(order[1..]);
      ClaimableFacts(rows, order[1..], now, only);
      assert order == [order[0]] + order[1..] && order[0] !in order[1..];
    }
  }

  /** The claimable events come in the order of their creation. */
  lemma ClaimableInOrder(rows: map<EventId, Row>, order: seq<EventId>, now: int, only: Option<EventId>)
    returns (indices: seq<nat>)
    ensures Picks(indices, 0, order, Claimable(rows, order, now, only))
  {
    indices := ClaimableFrom(rows, order, 0, now, only);
    assert order[0..] == order;
  }

  /** `picked` are the events that `order` has at the given indices, from `low` on. */
  ghost predicate Picks(indices: seq<nat>, low: nat, order: seq<EventId>, picked: seq<EventId>) {
    && Indices(indices, low, |order|) && |indices| == |picked|
    && forall i :: 0 <= i < |indices| ==> picked[i] == order[indices[i]]
  }

  lemma {:induction false} ClaimableFrom(
    rows: map<EventId, Row>, order: seq<EventId>, k: nat, now: int, only: Option<EventId>) returns (indices: seq<nat>)
    requires k <= |order|
    ensures Picks(indices, k, order, Claimable(rows, order[k..], now, only))
    decreases |order| - k
  {
    hide Claimable, Picks;
    if k == |order| {
      NoneClaimable(rows, now, only);
      indices := [];
      NonePicked(order, k);
    } else {
      var rest := ClaimableFrom(rows, order, k + 1, now, only);
      var first := ClaimableHead(rows, order[k..], now, only);
      assert order[k..][1..] == order[k + 1..];
      PicksMore(rest, k, order, Claimable(rows, order[k + 1..], now, only));
      indices := if first == [] then rest else [k] + rest;
      assert first == [] ==> first + Claimable(rows, order[k + 1..], now, only)
                             == Claimable(rows, order[k + 1..], now, only);
    }
  }

  lemma NonePicked(order: seq<EventId>, k: nat)
    ensures Picks([], k, order, [])
  {
  }

  lemma PicksMore(indices: seq<nat>, k: nat, order: seq<EventId>, picked: seq<EventId>)
    requires k < |order| && Picks(indices, k + 1, order, picked)
    ensures Picks(indices, k, order, picked) && Picks([k] + indices, k, order, [order[k]] + picked)
  {
    IndicesPrepend(indices, k, |order|);
  }

  lemma NoneClaimable(rows: map<EventId, Row>, now: int, only: Option<EventId>)
    ensures Claimable(rows, [], now, only) == []
  {
  }

  lemma ClaimableHead(rows: map<EventId, Row>, order: seq<EventId>, now: int, only: Option<EventId>)
    returns (first: seq<EventId>)
    requires order != []
    ensures Claimable(rows, order, now, only) == first + Claimable(rows, order[1..], now, only)
    ensures first == [] || first == [order[0]]
  {
    var id := order[0];
    var counts := id in rows && Due(Reclaimed(rows[id], now), now) && (only == None || only == Some(id));
    first := if counts then [id] else [];
  }

  /** Of two events that could be claimed, a pass with no room for both claims the older. */
  lemma OldestClaimed(
    rows: map<EventId, Row>, order: seq<EventId>, now: int, only: Option<EventId>, size: nat, i: nat, j: nat)
    requires Distinct(order) && i < j < |order|
    requires order[i] in Claimable(rows, order, now, only)
    requires order[j] in Take(Claimable(rows, order, now, only), size)
    ensures order[i] in Take(Claimable(rows, order, now, only), size)
  {
    hide Claimable;
    var claimable := Claimable(rows, order, now, only);
    var indices := ClaimableInOrder(rows, order, now, only);
    var a :| 0 <= a < |claimable| && claimable[a] == order[i];
    var b :| 0 <= b < |Take(claimable, size)| && Take(claimable, size)[b] == order[j];
    assert claimable[b] == order[j];
    assert order[indices[a]] == order[i] && order[indices[b]] == order[j];
    assert indices[a] == i && indices[b] == j;
    assert a < b;
    assert Take(claimable, size)[a] == order[i];
  }

  predicate Succeeds(row: Row, dispatchReturns: bool) {
    dispatchReturns && !row.topic.Unsupported?
  }

  /** A row after it was claimed, dispatched and settled. */
  function Drained(row: Row, dispatchReturns: bool, now: int, settledAt: int): Row {
    var claimed := Claimed(Reclaimed(row, now), now);
    if Succeeds(row, dispatchReturns) then SettledOk(claimed, settledAt)
    else SettledError(claimed, row.attempts + 1, settledAt)
  }

  /** One relay pass: the time stamp it takes first, for which events the external dispatch
      call returns, the others raising, and when each event is settled. */
  datatype Pass = Pass(now: int, succeeds: EventId -> bool, settledAt: EventId -> int)

  function DrainedBy(row: Row, pass: Pass, id: EventId): Row {
    Drained(row, pass.succeeds(id), pass.now, pass.settledAt(id))
  }

  /** How many of the events have the given status. */
  function CountStatus(rows: map<EventId, Row>, ids: seq<EventId>, status: Status): nat {
    if ids == [] then
      0
    else
      var last := ids[|ids| - 1];
      CountStatus(rows, ids[..|ids| - 1], status) + if last in rows && rows[last].status == status then 1 else 0
  }

  lemma {:induction false} CountUnchanged(
    before: map<EventId, Row>, after: map<EventId, Row>, ids: seq<EventId>, status: Status)
    requires forall id :: id in ids ==> id in before && id in after && before[id].status == after[id].status
    ensures CountStatus(before, ids, status) == CountStatus(after, ids, status)
  {
    if ids != [] {
      CountUnchanged(before, after, ids[..|ids| - 1], status);
    }
  }

  class OutboxTable {
    var rows: map<EventId, Row>
    var order: seq<EventId>   // the identifiers by time of creation

    ghost predicate Valid()
      reads this
    {
      && Distinct(order)
      && forall id :: id in order <==> id in rows
    }

    constructor ()
      ensures Valid() && rows == map[]
    {
      rows, order := map[], [];
    }

    method EnqueueEvent(id: EventId, topic: Topic, hasOrganization: bool, now: int) returns (created: bool)
      requires Valid() && id !in rows
      modifies this
      ensures Valid() && (created <==> topic != Webhook || hasOrganization)
      ensures rows == if created then old(rows)[id := Enqueued(topic, now)] else old(rows)
      ensures order == if created then old(order) + [id] else old(order)
    {
      if topic == Webhook && !hasOrganization {
        return false;
      }
      rows, order := rows[id := Enqueued(topic, now)], order + [id];
      created := true;
    }

    /** Claims a batch, dispatches its events and settles each. */
    method DrainBatch(pass: Pass, batchSize: int, only: Option<EventId>)
      returns (claimed: seq<EventId>, dispatched: nat, retried: nat, failed: nat)
      requires Valid()
      modifies this`rows
      ensures Valid()
      ensures claimed == Take(Claimable(old(rows), order, pass.now, only), MaxInt(1, batchSize))
      ensures BatchOf(old(rows), claimed, pass.now, only, MaxInt(1, batchSize))
      ensures rows.Keys == old(rows).Keys
      ensures forall id :: id in rows ==>
                rows[id] == if id in claimed then DrainedBy(old(rows)[id], pass, id)
                            else Reclaimed(old(rows)[id], pass.now)
      ensures |claimed| == dispatched + retried + failed
      ensures dispatched == CountStatus(rows, claimed, Dispatched) && failed == CountStatus(rows, claimed, Failed)
    {
      hide Claimable, Take, CountStatus, SettledUpTo, Claimed, Distinct, Reclaimed, Due, SettledOk, SettledError,
           DrainedBy, BatchOf;
      ghost var start := rows;
      var reclaimed := map id | id in rows :: Reclaimed(rows[id], pass.now);
      ReclaimKeepsClaimable(start, reclaimed, order, pass.now, only);
      claimed := Take(Claimable(reclaimed, order, pass.now, only), MaxInt(1, batchSize));
      BatchFacts(start, order, pass.now, only, MaxInt(1, batchSize));
      BatchColumns(start, order, pass.now, only, MaxInt(1, batchSize));
      rows := map id | id in reclaimed :: if id in claimed then Claimed(reclaimed[id], pass.now) else reclaimed[id];
      dispatched, retried, failed := 0, 0, 0;
      NoneSettled(start, rows, claimed, pass);
      for i := 0 to |claimed|
        invariant rows.Keys == start.Keys
        invariant SettledUpTo(start, rows, claimed, i, pass)
        invariant i == dispatched + retried + failed
        invariant dispatched == CountStatus(rows, claimed[..i], Dispatched)
        invariant failed == CountStatus(rows, claimed[..i], Failed)
      {
        SettleNext(start, rows, claimed, i, pass);
        var id := claimed[i];
        ghost var before := rows;
        var status := SettleClaimed(id, pass);
        if status == Dispatched {
          dispatched := dispatched + 1;
        } else if status == Failed {
          failed := failed + 1;
        } else {
          retried := retried + 1;
        }
        CountNext(before, rows, claimed, i, Dispatched);
        CountNext(before, rows, claimed, i, Failed);
      }
      assert claimed[..|claimed|] == claimed;
      AllSettled(start, rows, claimed, pass);
    }

    /** Dispatches one claimed event and settles it by the outcome. */
    method SettleClaimed(id: EventId, pass: Pass) returns (status: Status)
      requires id in rows && rows[id].attempts >= 1
      modifies this`rows
      ensures rows == old(rows)[id :=
                if Succeeds(old(rows)[id], pass.succeeds(id)) then SettledOk(old(rows)[id], pass.settledAt(id))
                else SettledError(old(rows)[id], old(rows)[id].attempts, pass.settledAt(id))]
      ensures status == rows[id].status != Processing
    {
      hide Backoff;
      var attempt := rows[id].attempts;
      if pass.succeeds(id) && !rows[id].topic.Unsupported? {
        rows := rows[id := SettledOk(rows[id], pass.settledAt(id))];
        status := Dispatched;
      } else if attempt >= MAX_ATTEMPTS {
        rows := rows[id := SettledError(rows[id], attempt, pass.settledAt(id))];
        status := Failed;
      } else {
        rows := rows[id := SettledError(rows[id], attempt, pass.settledAt(id))];
        status := Pending;
      }
    }

    /** Re-arms an event that an administrator has loaded as `loaded`; only a row that
        is still there is written. */
    method ReplayDeadLetter(id: EventId, loaded: Row, now: int) returns (replayed: bool)
      requires Valid()
      modifies this`rows
      ensures Valid() && (replayed <==> loaded.status == Failed && id in old(rows))
      ensures rows == if replayed then old(rows)[id := Rearmed(old(rows)[id], now)] else old(rows)
    {
      if loaded.status != Failed || id !in rows {
        return false;
      }
      rows := rows[id := Rearmed(rows[id], now)];
      replayed := true;
    }

    /** The delete statement of a pruning pass: it looks at the status again. */
    method DeleteDispatched(ids: set<EventId>) returns (deleted: nat)
      requires Valid()
      modifies this
      ensures Valid()
      ensures rows == old(rows) - (set id | id in ids && id in old(rows) && old(rows)[id].status == Dispatched)
      ensures deleted == |old(rows)| - |rows|
    {
      var doomed := set id | id in ids && id in rows && rows[id].status == Dispatched;
      RemovalCounts(rows, doomed);
      deleted := |doomed|;
      rows := rows - doomed;
      order := Remaining(order, doomed);
    }

    /** Deletes rows dispatched up to `cutoff`, oldest first, in chunks.  A row that was not
        dispatched, or later, is kept as it was; of two that may go, a younger one never
        goes first; and unless the chunks ran out, none that may go is left. */
    method PruneHistory(cutoff: int, chunkSize: int, maxChunks: int) returns (deleted: nat)
      requires Valid()
      modifies this
      ensures Valid()
      ensures forall id :: id in rows ==> id in old(rows) && rows[id] == old(rows)[id]
      ensures forall id :: id in old(rows) && id !in rows ==>
                var gone := old(rows)[id];
                && gone.status == Dispatched && gone.dispatchedAt.Some? && gone.dispatchedAt.value <= cutoff
                && forall other ::
                     other in rows && rows[other].status == Dispatched && rows[other].dispatchedAt.Some? ==>
                     gone.dispatchedAt.value <= rows[other].dispatchedAt.value
      ensures deleted == |old(rows)| - |rows| <= MaxInt(1, chunkSize) * MaxInt(1, maxChunks)
      ensures deleted < MaxInt(1, chunkSize) * MaxInt(1, maxChunks) ==>
                forall id :: id in rows && rows[id].status == Dispatched && rows[id].dispatchedAt.Some? ==>
                  rows[id].dispatchedAt.value > cutoff
    {
      hide PrunedTo, NothingPrunable, Valid;
      var safeChunk, safeMaxChunks: nat := MaxInt(1, chunkSize), MaxInt(1, maxChunks);
      NothingPruned(rows, cutoff);
      deleted := 0;
      var pass := 0;
      while pass < safeMaxChunks
        invariant 0 <= pass <= safeMaxChunks && Valid() && PrunedTo(old(rows), rows, cutoff)
        invariant deleted == |old(rows)| - |rows| == safeChunk * pass
      {
        Distribute(safeChunk, pass, safeMaxChunks);
        var batch := OldestPrunable(rows, cutoff, safeChunk);
        if batch == {} {
          break;
        }
        PruneMore(old(rows), rows, batch, cutoff, safeChunk);
        var count := DeleteDispatched(batch);
        deleted := deleted + count;
        if |batch| < safeChunk {
          break;
        }
        pass := pass + 1;
      }
      PrunedColumns(old(rows), rows, cutoff);
    }
  }

  lemma Distribute(chunk: nat, pass: nat, max: nat)
    requires pass < max
    ensures chunk * (pass + 1) == chunk * pass + chunk <= chunk * max
  {
  }

  /** The claimed events before `i` are settled, the others still claimed. */
  ghost predicate SettledUpTo(
    start: map<EventId, Row>, rows: map<EventId, Row>, claimed: seq<EventId>, i: nat, pass: Pass)
  {
    && rows.Keys == start.Keys && i <= |claimed| && Distinct(claimed)
    && (forall id :: id in claimed ==> id in rows)
    && (forall id :: id in rows && id !in claimed ==> rows[id] == Reclaimed(start[id], pass.now))
    && (forall j :: 0 <= j < i ==> rows[claimed[j]] == DrainedBy(start[claimed[j]], pass, claimed[j]))
    && (forall j :: i <= j < |claimed| ==>
          rows[claimed[j]] == Claimed(Reclaimed(start[claimed[j]], pass.now), pass.now))
  }

  lemma NoneSettled(
    start: map<EventId, Row>, rows: map<EventId, Row>, claimed: seq<EventId>, pass: Pass)
    requires Distinct(claimed) && (forall id :: id in claimed ==> id in start)
    requires rows.Keys == start.Keys
    requires forall id :: id in start ==>
               rows[id] == if id in claimed then Claimed(Reclaimed(start[id], pass.now), pass.now)
                           else Reclaimed(start[id], pass.now)
    ensures SettledUpTo(start, rows, claimed, 0, pass)
    ensures forall status :: CountStatus(rows, claimed[..0], status) == 0
  {
    hide Claimed, Reclaimed;
  }

  /** Settling the event at index `i` extends the settled ones by one. */
  lemma SettleNext(
    start: map<EventId, Row>, rows: map<EventId, Row>, claimed: seq<EventId>, i: nat, pass: Pass)
    requires SettledUpTo(start, rows, claimed, i, pass) && i < |claimed|
    ensures claimed[i] in rows && Distinct(claimed) && (forall id :: id in claimed ==> id in rows)
    ensures var id := claimed[i]; var after := DrainedBy(start[id], pass, id);
      && rows[id].attempts >= 1
      && after == (if Succeeds(rows[id], pass.succeeds(id)) then SettledOk(rows[id], pass.settledAt(id))
                   else SettledError(rows[id], rows[id].attempts, pass.settledAt(id)))
      && SettledUpTo(start, rows[id := after], claimed, i + 1, pass)
  {
    hide Backoff;
    assert claimed[i] in claimed;
    assert rows[claimed[i]] == Claimed(Reclaimed(start[claimed[i]], pass.now), pass.now);
  }

  lemma AllSettled(
    start: map<EventId, Row>, rows: map<EventId, Row>, claimed: seq<EventId>, pass: Pass)
    requires SettledUpTo(start, rows, claimed, |claimed|, pass)
    ensures rows.Keys == start.Keys
    ensures forall id :: id in rows ==>
              rows[id] == if id in claimed then DrainedBy(start[id], pass, id)
                          else Reclaimed(start[id], pass.now)
  {
    hide DrainedBy, Reclaimed;
  }

  lemma CountNext(before: map<EventId, Row>, after: map<EventId, Row>, ids: seq<EventId>, i: nat, status: Status)
    requires Distinct(ids) && i < |ids| && (forall id :: id in ids ==> id in before) && ids[i] in after
    requires after == before[ids[i] := after[ids[i]]]
    ensures CountStatus(after, ids[..i + 1], status)
         == CountStatus(before, ids[..i], status) + if after[ids[i]].status == status then 1 else 0
  {
    assert ids[..i + 1][..i] == ids[..i];
    forall id | id in ids[..i] ensures id in before && id != ids[i] {
      assert id in ids;
    }
    CountUnchanged(before, after, ids[..i], status);
  }

  /** `rows` is `start` without some prunable rows, and no prunable row that is
      left is older than one that is gone. */
  ghost predicate PrunedTo(start: map<EventId, Row>, rows: map<EventId, Row>, cutoff: int) {
    && rows.Keys <= start.Keys
    && (forall id :: id in rows ==> rows[id] == start[id])
    && (forall id :: id in start && id !in rows ==> Prunable(start[id], cutoff))
    && (forall gone, left :: gone in start && gone !in rows && left in rows && Prunable(rows[left], cutoff) ==>
          NotYounger(start[gone], rows[left]))
  }

  predicate NotYounger(a: Row, b: Row) {
    a.dispatchedAt.Some? && b.dispatchedAt.Some? && a.dispatchedAt.value <= b.dispatchedAt.value
  }

  lemma PrunedColumns(start: map<EventId, Row>, rows: map<EventId, Row>, cutoff: int)
    requires PrunedTo(start, rows, cutoff)
    ensures forall id :: id in rows ==> id in start && rows[id] == start[id]
    ensures forall id :: id in start && id !in rows ==>
              var gone := start[id];
              && gone.status == Dispatched && gone.dispatchedAt.Some? && gone.dispatchedAt.value <= cutoff
              && forall other ::
                   other in rows && rows[other].status == Dispatched && rows[other].dispatchedAt.Some? ==>
                   gone.dispatchedAt.value <= rows[other].dispatchedAt.value
    ensures NothingPrunable(rows, cutoff) ==>
              forall id :: id in rows && rows[id].status == Dispatched && rows[id].dispatchedAt.Some? ==>
                rows[id].dispatchedAt.value > cutoff
  {
  }

  lemma NothingPruned(rows: map<EventId, Row>, cutoff: int)
    ensures PrunedTo(rows, rows, cutoff)
  {
  }

  ghost predicate NothingPrunable(rows: map<EventId, Row>, cutoff: int) {
    forall id :: id in rows ==> !Prunable(rows[id], cutoff)
  }

  /** `batch` are prunable rows, up to `size` of them, all of them if there is room,
      and otherwise the oldest. */
  ghost predicate OldestOf(rows: map<EventId, Row>, batch: set<EventId>, cutoff: int, size: nat) {
    && batch <= rows.Keys && |batch| <= size
    && (forall id :: id in batch ==> Prunable(rows[id], cutoff))
    && (|batch| < size ==> forall id :: id in rows && Prunable(rows[id], cutoff) ==> id in batch)
    && (forall id, other :: id in batch && other in rows && other !in batch && Prunable(rows[other], cutoff) ==>
          NotYounger(rows[id], rows[other]))
  }

  lemma PruneMore(start: map<EventId, Row>, rows: map<EventId, Row>, batch: set<EventId>, cutoff: int, size: nat)
    requires PrunedTo(start, rows, cutoff) && OldestOf(rows, batch, cutoff, size)
    ensures var doomed := set id | id in batch && id in rows && rows[id].status == Dispatched;
      && PrunedTo(start, rows - doomed, cutoff)
      && |rows - doomed| == |rows| - |batch|
      && |batch| <= size
      && (|batch| < size ==> NothingPrunable(rows - doomed, cutoff))
  {
    hide NotYounger;
    var doomed := set id | id in batch && id in rows && rows[id].status == Dispatched;
    assert doomed == batch;
    RemovalCounts(rows, batch);
  }

  lemma {:induction false} ReclaimKeepsClaimable(
    start: map<EventId, Row>, rows: map<EventId, Row>, order: seq<EventId>, now: int, only: Option<EventId>)
    requires rows == map id | id in start :: Reclaimed(start[id], now)
    ensures Claimable(rows, order, now, only) == Claimable(start, order, now, only)
  {
    if order != [] {
      ReclaimKeepsClaimable(start, rows, order[1..], now, only);
    }
  }

  lemma BatchFacts(rows: map<EventId, Row>, order: seq<EventId>, now: int, only: Option<EventId>, size: nat)
    requires Distinct(order)
    ensures var batch := Take(Claimable(rows, order, now, only), size);
      && Distinct(batch)
      && forall id :: id in batch ==> id in rows && Due(Reclaimed(rows[id], now), now)
  {
    ClaimableFacts(rows, order, now, only);
  }

  /** The batch has at most `size` events, once each, all of them pending or being processed
      with their time come; and unless it is full, it has all such events. */
  ghost predicate BatchOf(rows: map<EventId, Row>, batch: seq<EventId>, now: int, only: Option<EventId>, size: nat) {
    && Distinct(batch) && |batch| <= size
    && (forall id :: id in batch ==>
          && id in rows && (only == None || only == Some(id))
          && rows[id].status in {Pending, Processing} && rows[id].nextAttemptAt <= now)
    && (|batch| < size ==>
          forall id :: id in rows && rows[id].status in {Pending, Processing} && rows[id].nextAttemptAt <= now
                       && (only == None || only == Some(id)) ==>
            id in batch)
  }

  /** What a batch consists of, by the columns of its rows. */
  lemma BatchColumns(rows: map<EventId, Row>, order: seq<EventId>, now: int, only: Option<EventId>, size: nat)
    requires Distinct(order) && forall id :: id in order <==> id in rows
    ensures BatchOf(rows, Take(Claimable(rows, order, now, only), size), now, only, size)
  {
    hide Claimable;
    ClaimableFacts(rows, order, now, only);
    var claimable := Claimable(rows, order, now, only);
    if |Take(claimable, size)| < size {
      assert Take(claimable, size) == claimable;
    }
  }

  lemma RemovalCounts(rows: map<EventId, Row>, batch: set<EventId>)
    requires batch <= rows.Keys
    ensures |rows - batch| == |rows| - |batch|
  {
    assert (rows - batch).Keys == rows.Keys - batch;
    assert |rows.Keys| == |rows.Keys - batch| + |batch|;
    assert |rows| == |rows.Keys| && |rows - batch| == |(rows - batch).Keys|;
  }

  function Remaining(order: seq<EventId>, batch: set<EventId>): (rest: seq<EventId>)
    ensures forall id :: id in rest <==> id in order && id !in batch
    ensures Distinct(order) ==> Distinct(rest)
  {
    if order == [] then []
    else
      assert Distinct(order) ==> Distinct(order[1..]) && order[0] !in order[1..];
      (if order[0] in batch then [] else [order[0]]) + Remaining(order[1..], batch)
  }

  /** Up to `size` prunable rows, none of them younger than one left out. */
  method OldestPrunable(rows: map<EventId, Row>, cutoff: int, size: nat) returns (batch: set<EventId>)
    ensures OldestOf(rows, batch, cutoff, size)
    ensures batch == {} && size > 0 ==> NothingPrunable(rows, cutoff)
  {
    var rest := set id | id in rows && Prunable(rows[id], cutoff);
    ghost var eligible := rest;
    batch := {};
    while |batch| < size && rest != {}
      invariant batch <= eligible && rest == eligible - batch && |batch| <= size
      invariant forall id, other :: id in batch && other in rest ==> NotYounger(rows[id], rows[other])
      decreases rest
    {
      ghost var oldest := OldestExists(rows, cutoff, rest);
      var id :| id in rest && forall other :: other in rest ==> NotYounger(rows[id], rows[other]);
      batch, rest := batch + {id}, rest - {id};
    }
  }

  lemma {:induction false} OldestExists(rows: map<EventId, Row>, cutoff: int, ids: set<EventId>)
    returns (oldest: EventId)
    requires ids != {} && forall id :: id in ids ==> id in rows && Prunable(rows[id], cutoff)
    ensures oldest in ids && forall other :: other in ids ==> NotYounger(rows[oldest], rows[other])
  {
    oldest :| oldest in ids;
    var rest := ids - {oldest};
    if rest != {} {
      var best := OldestExists(rows, cutoff, rest);
      oldest := if NotYounger(rows[oldest], rows[best]) then oldest else best;
    }
    assert forall other :: other in ids ==> other in rest || {other} == ids - rest;
  }
}
