/**
  The replication service as it runs: a repository of spaces, transactions on a working copy that
  replaces the space only when the callback succeeds, and the step-by-step writes of each operation.
  Every method is tied to the state function that the theorems about runs are stated for.
 */
module RecordService {
  import opened Wrappers
  import opened Schema
  import opened Merging
  import opened Replication
  import opened Ledgers

  const MAX_BATCH := 100

  lemma PrependNothing(rest: Result<seq<Response>, Error>)
    ensures Prepend([], rest) == rest
  {
    if rest.Ok? {
      assert [] + rest.value == rest.value;
    }
  }

  lemma PrependTwice(first: seq<Response>, second: seq<Response>, rest: Result<seq<Response>, Error>)
    ensures Prepend(first, Prepend(second, rest)) == Prepend(first + second, rest)
  {
    if rest.Ok? {
      assert first + (second + rest.value) == (first + second) + rest.value;
    }
  }

  /** A working copy of one space, updated in place by the writes of a transaction. */
  class RecordTransaction {
    const scope: Scope
    var restoreEpoch: nat
    var nextSequence: nat
    var floorSequence: int
    var records: map<Key, Record>
    var versions: map<VersionKey, Version>
    var operations: map<LedgerKey, LedgerEntry>
    var changes: seq<Change>
    var conflicts: map<Id, Conflict>
    var categories: map<Category, CategoryState>

    ghost function Contents(): Space
      reads this
    {
      Space(scope, restoreEpoch, nextSequence, floorSequence, records, versions, operations, changes, conflicts,
            categories)
    }

    constructor (s: Space)
      ensures Contents() == s
    {
      scope, restoreEpoch, nextSequence, floorSequence := s.scope, s.restoreEpoch, s.nextSequence, s.floorSequence;
      records, versions, operations := s.records, s.versions, s.operations;
      changes, conflicts, categories := s.changes, s.conflicts, s.categories;
    }

    method Snapshot() returns (s: Space)
      ensures s == Contents()
    {
      s := Space(scope, restoreEpoch, nextSequence, floorSequence, records, versions, operations, changes, conflicts,
                 categories);
    }

    method GetRecord(key: Key) returns (r: Option<Record>)
      ensures r == Current(Contents(), key)
    {
      r := if key in records then Some(records[key]) else None;
    }

    method GetVersion(key: Key, revision: nat) returns (v: Option<Version>)
      ensures v == VersionAt(Contents(), key, revision)
    {
      var k := VersionKey(key, revision);
      v := if k in versions then Some(versions[k]) else None;
    }

    method NextSequence() returns (n: nat)
      modifies this`nextSequence
      ensures n == nextSequence == old(nextSequence) + 1
    {
      nextSequence := nextSequence + 1;
      n := nextSequence;
    }

    method PutVersion(v: Version)
      modifies this`versions
      ensures versions == old(versions)[VersionKey(v.record.key, v.record.revision) := v]
    {
      versions := versions[VersionKey(v.record.key, v.record.revision) := v];
    }

    method PutRecord(r: Record)
      modifies this`records
      ensures records == old(records)[r.key := r]
    {
      records := records[r.key := r];
    }

    method AddChange(c: Change)
      modifies this`changes
      ensures changes == old(changes) + [c]
    {
      changes := changes + [c];
    }

    method AddConflict(c: Clash)
      modifies this`conflicts
      ensures conflicts == old(conflicts)[c.conflictId := Conflict(c, Unresolved)]
    {
      conflicts := conflicts[c.conflictId := Conflict(c, Unresolved)];
    }

    method UpdateConflict(id: Id, status: ConflictStatus)
      requires id in conflicts
      modifies this`conflicts
      ensures conflicts == old(conflicts)[id := old(conflicts)[id].(status := status)]
    {
      conflicts := conflicts[id := conflicts[id].(status := status)];
    }

    method PutOperation(k: LedgerKey, entry: LedgerEntry)
      modifies this`operations
      ensures operations == old(operations)[k := entry]
    {
      operations := operations[k := entry];
    }

    /** Scans the records of a category for one that is not deleted. */
    method SomeLive(category: Category) returns (live: bool)
      ensures live == AnyLive(records, category)
    {
      var pending := records.Keys;
      live := false;
      while pending != {} && !live
        invariant pending <= records.Keys
        invariant live ==> AnyLive(records, category)
        invariant !live ==>
                    forall key :: key in records && key !in pending ==>
                             !(records[key].category == category && !records[key].deleted)
        decreases |pending|, !live
      {
        var key :| key in pending;
        pending := pending - {key};
        live := records[key].category == category && !records[key].deleted;
      }
    }

    method SetCategory(category: Category, present: bool, updatedAt: int, lastSequence: nat)
      modifies this`categories
      ensures var generation := if category in old(categories) then old(categories)[category].clearGeneration else 0;
              categories == old(categories)[category := CategoryState(present, generation, updatedAt, lastSequence)]
    {
      var clearGeneration := if category in categories then categories[category].clearGeneration else 0;
      categories := categories[category := CategoryState(present, clearGeneration, updatedAt, lastSequence)];
    }
  }

  /** The summary after a revision depends on no part of the space but the summaries and the records. */
  lemma SameSummaries(s: Space, t: Space, records: map<Key, Record>, r: Record)
    requires s.categories == t.categories
    ensures CategoryAfter(s, records, r) == CategoryAfter(t, records, r)
  {
  }

  class RecordReplicationService {
    const cfg: Config
    var spaces: map<Scope, Space>

    constructor (cfg: Config)
      ensures this.cfg == cfg && spaces == map[]
    {
      this.cfg := cfg;
      spaces := map[];
    }

    method SeedSpace(scope: Scope, restoreEpoch: nat)
      modifies this
      ensures NewSpace(scope, restoreEpoch) == Space(scope, restoreEpoch, 0, 1, map[], map[], map[], [], map[], map[])
      ensures spaces == if scope in old(spaces) then old(spaces)
              else old(spaces)[scope := NewSpace(scope, restoreEpoch)]
    {
      if scope !in spaces {
        spaces := spaces[scope := NewSpace(scope, restoreEpoch)];
      }
    }

    method Accept(tx: RecordTransaction, clientId: Id, edit: Edit, payload: Option<Payload>, deleted: bool,
                  current: Option<Record>, now: int)
      returns (record: Record)
      requires current == Current(tx.Contents(), edit.key)
      modifies tx
      ensures tx.Contents() == Replication.Accept(cfg, old(tx.Contents()), clientId, edit, payload, deleted, now)
      ensures record == NextRecord(cfg, old(tx.Contents()), clientId, edit, payload, deleted, now)
    {
      hide CategoryAfter;
      var revision := (if current.Some? then current.value.revision else 0) + 1;
      var sequence := tx.NextSequence();
      var retainUntil := if deleted then Some(now + cfg.tombstoneDays * DAY) else None;
      record := Record(edit.key, edit.category, revision, now, clientId, deleted, payload, sequence, retainUntil);
      Keep(tx, Version(record, edit.baseRevision, edit.operationId));
      SameSummaries(old(tx.Contents()), tx.Contents(), tx.records, record);
      Summarise(tx, record, now);
      var body := Stored(deleted, !deleted && current.Some? && current.value.deleted, record);
      tx.AddChange(Change(sequence, edit.category, edit.key, revision, body, clientId, now));
    }

    /** Sets the summary of the category a new record is in. */
    method Summarise(tx: RecordTransaction, record: Record, now: int)
      requires record.updatedAt == now
      modifies tx`categories
      ensures tx.categories ==
              old(tx.categories)[record.category := CategoryAfter(old(tx.Contents()), tx.records, record)]
    {
      hide AnyLive;
      var live := tx.SomeLive(record.category);
      tx.SetCategory(record.category, !record.deleted || live, now, record.sequence);
    }

    /** Puts a version, and its record in the place of the former one. */
    method Keep(tx: RecordTransaction, v: Version)
      modifies tx`versions, tx`records
      ensures tx.versions == old(tx.versions)[VersionKey(v.record.key, v.record.revision) := v]
      ensures tx.records == old(tx.records)[v.record.key := v.record]
    {
      tx.PutVersion(v);
      tx.PutRecord(v.record);
    }

    method AcceptOperation(tx: RecordTransaction, ctx: Context, op: Operation, payload: Option<Payload>, deleted: bool,
                           current: Option<Record>,
                           now: int, merged: bool, resolved: Option<Id>)
      returns (outcome: Outcome)
      requires current == Current(tx.Contents(), op.key)
      modifies tx
      ensures Applied(tx.Contents(), outcome) ==
              Replication.AcceptOperation(cfg, old(tx.Contents()), ctx, op, payload, deleted, now, merged, resolved)
    {
      var record := Accept(tx, ctx.clientId, EditOf(op), payload, deleted, current, now);
      outcome := Accepted(record, record.sequence, merged, resolved);
    }

    method AddConflict(tx: RecordTransaction, ctx: Context, op: Operation, current: Option<Record>, now: int,
                       reason: Reason,
                       changedFields: set<string>, newId: Id)
      returns (outcome: Outcome)
      requires current == Current(tx.Contents(), op.key)
      modifies tx
      ensures Applied(tx.Contents(), outcome) ==
              Replication.AddConflict(cfg, old(tx.Contents()), ctx, op, now, reason, changedFields, newId)
    {
      var sequence := tx.NextSequence();
      var currentRevision := if current.Some? then current.value.revision else 0;
      var clash := Clash(newId, ctx.scope, op.key, op.category, op.Base(), currentRevision,
                         if current.Some? then current.value.payload else None, op.payload,
                         if current.Some? then Some(current.value.origin) else None,
                         ctx.clientId, changedFields, reason, now, now + cfg.conflictDays * DAY, sequence);
      tx.AddConflict(clash);
      tx.AddChange(Change(sequence, op.category, op.key, currentRevision, Conflicting(clash), ctx.clientId, now));
      outcome := Conflicted(newId, currentRevision, sequence);
    }

    method ApplyStale(tx: RecordTransaction, ctx: Context, op: Operation, current: Option<Record>, now: int, newId: Id)
      returns (outcome: Outcome)
      requires current == Current(tx.Contents(), op.key)
      modifies tx
      ensures Applied(tx.Contents(), outcome) == Replication.ApplyStale(cfg, old(tx.Contents()), ctx, op, now, newId)
    {
      var base := tx.GetVersion(op.key, op.Base());
      var policy := PolicyOf(op.key.entityType);
      if policy.LastWriterWins? && op.kind.Upsert? {
        outcome := AcceptOperation(tx, ctx, op, op.payload, false, current, now, false, None);
      } else if current.None? || base.None? || current.value.deleted || op.kind.Delete? {
        var reason := if current.Some? && current.value.deleted then StaleEditAfterDelete else StaleRevision;
        outcome := AddConflict(tx, ctx, op, current, now, reason, {}, newId);
      } else {
        var before := Fields(base.value.record.payload);
        var payload, fields := MergeFields(before, Fields(current.value.payload), Fields(op.payload));
        if fields == {} {
          outcome := AcceptOperation(tx, ctx, op, Some(payload), false, current, now, true, None);
        } else {
          var reason := if policy.KeepCopy? then ConflictCopy else FieldConflict;
          outcome := AddConflict(tx, ctx, op, current, now, reason, fields, newId);
        }
      }
    }

    method ResolveConflict(tx: RecordTransaction, ctx: Context, op: Operation, current: Option<Record>, now: int,
                           newId: Id)
      returns (outcome: Result<Outcome, Error>)
      requires current == Current(tx.Contents(), op.key) && op.conflictId.Some?
      modifies tx
      ensures var applied := ApplyResolution(cfg, old(tx.Contents()), ctx, op, now, newId);
              if applied.Ok? then outcome.Ok? && Applied(tx.Contents(), outcome.value) == applied.value
              else outcome == Err(applied.error)
    {
      var id := op.conflictId.value;
      if id !in tx.conflicts || tx.conflicts[id].clash.scope != ctx.scope || tx.conflicts[id].clash.key != op.key {
        return Err(ResourceNotFound);
      }
      if !tx.conflicts[id].status.Unresolved? || current.None? || op.baseRevision != Some(current.value.revision) {
        var refused := AddConflict(tx, ctx, op, current, now, StaleResolution, {}, newId);
        return Ok(refused);
      }
      var accepted := AcceptOperation(tx, ctx, op, op.payload, false, current, now, false, Some(id));
      tx.UpdateConflict(id, Resolved(accepted.record.revision, now));
      outcome := Ok(accepted);
    }

    /** The callback of one pushed operation, on a working copy. */
    method Apply(tx: RecordTransaction, ctx: Context, op: Operation, now: int, newId: Id)
        returns (outcome: Result<Outcome, Error>)
      requires op.WellFormed()
      modifies tx
      ensures var applied := Effect(cfg, old(tx.Contents()), ctx, op, now, newId);
              if applied.Ok? then outcome.Ok? && Applied(tx.Contents(), outcome.value) == applied.value
              else outcome == Err(applied.error)
    {
      var current := tx.GetRecord(op.key);
      if op.kind.ResolveConflict? {
        outcome := ResolveConflict(tx, ctx, op, current, now, newId);
      } else if IsStale(op, current) {
        var stale := ApplyStale(tx, ctx, op, current, now, newId);
        outcome := Ok(stale);
      } else {
        var payload := if !op.kind.Delete? then op.payload else if current.Some? then current.value.payload else None;
        var accepted := AcceptOperation(tx, ctx, op, payload, op.kind.Delete?, current, now, false, None);
        outcome := Ok(accepted);
      }
    }

    /** One pushed operation in its own transaction; a failing callback leaves the space as it was. */
    method ApplyOperation(ctx: Context, op: Operation, now: int, newId: Id) returns (answer: Result<Response, Error>)
      modifies this
      ensures ctx.scope in old(spaces) ==>
                var reply := Replication.ApplyOperation(cfg, old(spaces)[ctx.scope], ctx, op, now, newId);
                answer == reply.answer && spaces == old(spaces)[ctx.scope := reply.space]
      ensures ctx.scope !in old(spaces) ==>
                spaces == old(spaces) && answer == if Refusal(cfg, op).Some? then Ok(Rejected(Refusal(cfg, op).value))
                  else Err(ScopeNotFound)
    {
      var refusal := Refusal(cfg, op);
      if refusal.Some? {
        return Ok(Rejected(refusal.value));
      }
      if ctx.scope !in spaces {
        return Err(ScopeNotFound);
      }
      var state := spaces[ctx.scope];
      if !EpochAllows(state, ctx) {
        return Err(RestoreEpochChanged);
      }
      var tx := new RecordTransaction(state);
      var k := LedgerKey(ctx.clientId, op.operationId);
      if k in tx.operations {
        var prior := tx.operations[k];
        return if prior.request != op then Err(OperationReused) else Ok(Duplicate(prior.outcome));
      }
      var outcome := Apply(tx, ctx, op, now, newId);
      match outcome
      case Err(e) => answer := Err(e);
      case Ok(o) =>
        tx.PutOperation(k, LedgerEntry(op, o, now));
        var working := tx.Snapshot();
        spaces := spaces[ctx.scope := working];
        answer := Ok(Committed(o));
    }

    /** A batch is applied operation by operation; the first error ends it and keeps what was done. */
    method Push(ctx: Context, items: seq<Item>) returns (answer: Result<seq<Response>, Error>)
      modifies this
      ensures 1 <= |items| <= 100 && ctx.scope in old(spaces) ==>
                var r := PushBatch(cfg, old(spaces)[ctx.scope], ctx, items);
                answer == r.answer && spaces == old(spaces)[ctx.scope := r.space]
      ensures |items| < 1 || 100 < |items| ==> answer == Err(TechnicalLimitExceeded)
      ensures |items| < 1 || 100 < |items| || ctx.scope !in old(spaces) ==> spaces == old(spaces)
    {
      if |items| < 1 || MAX_BATCH < |items| {
        return Err(TechnicalLimitExceeded);
      }
      var results: seq<Response> := [];
      ghost var known := ctx.scope in spaces;
      ghost var whole := if known then PushBatch(cfg, spaces[ctx.scope], ctx, items)
        else BatchReply(NewSpace(ctx.scope, 0), 0, Ok([]));
      assert items[0..] == items;
      PrependNothing(whole.answer);
      for i := 0 to |items|
        invariant known == (ctx.scope in spaces)
        invariant !known ==> spaces == old(spaces)
        invariant known ==> spaces == old(spaces)[ctx.scope := spaces[ctx.scope]]
        invariant known ==> whole.space == PushBatch(cfg, spaces[ctx.scope], ctx, items[i..]).space
        invariant known ==> whole.answer == Prepend(results, PushBatch(cfg, spaces[ctx.scope], ctx, items[i..]).answer)
      {
        assert items[i..][1..] == items[i + 1..];
        hide Replication.ApplyOperation;
        var answerOne := ApplyOperation(ctx, items[i].op, items[i].now, items[i].newId);
        match answerOne
        case Err(e) => return Err(e);
        case Ok(response) =>
          if known {
            PrependTwice(results, [response], PushBatch(cfg, spaces[ctx.scope], ctx, items[i + 1..]).answer);
          }
          results := results + [response];
      }
      assert items[|items|..] == [] && results + [] == results;
      answer := Ok(results);
    }

    /** Settles a conflict for the account owner. */
    method ResolveConflictForAccount(ctx: Context, request: ResolveRequest, now: int, operationId: Id)
        returns (answer: Result<Replication.Resolved, Error>)
      modifies this
      ensures ctx.scope in old(spaces) ==>
                var reply := ResolveForAccount(cfg, old(spaces)[ctx.scope], ctx, request, now, operationId);
                answer == reply.answer && spaces == old(spaces)[ctx.scope := reply.space]
      ensures ctx.scope !in old(spaces) ==> spaces == old(spaces) && answer == Err(ScopeNotFound)
    {
      if ctx.scope !in spaces {
        return Err(ScopeNotFound);
      }
      var state := spaces[ctx.scope];
      if !EpochAllows(state, ctx) {
        return Err(RestoreEpochChanged);
      }
      var tx := new RecordTransaction(state);
      if request.conflictId !in tx.conflicts || tx.conflicts[request.conflictId].clash.scope != ctx.scope {
        return Err(ResourceNotFound);
      }
      var c, status := tx.conflicts[request.conflictId].clash, tx.conflicts[request.conflictId].status;
      if status.Resolved? {
        var version := tx.GetVersion(c.key, status.revision);
        return Ok(AlreadyResolved(version));
      }
      var current := tx.GetRecord(c.key);
      if current.None? || current.value.revision != request.baseRevision {
        return Err(StaleResolutionRequest);
      }
      var payload := ResolutionPayload(c, request.resolution);
      if CategoryOf(c.key.entityType) != c.category || payload.None? || !cfg.valid(c.key.entityType, payload.value) {
        return Err(InvalidPayload);
      }
      var client := c.currentOrigin.GetOr(c.incomingOrigin);
      var record := Accept(tx, client, Edit(operationId, c.key, c.category, current.value.revision), payload, false,
                           current, now);
      tx.UpdateConflict(request.conflictId, Replication.ConflictStatus.Resolved(record.revision, now));
      var working := tx.Snapshot();
      spaces := spaces[ctx.scope := working];
      answer := Ok(NewlyResolved(record, record.sequence));
    }

    /** Deletes the listed rows, one revision each, in their order. */
    method TombstoneRows(tx: RecordTransaction, ctx: Context, rows: seq<Key>, stamps: seq<Stamp>)
      requires |stamps| == |rows| && forall key :: key in rows ==> key in tx.records
      modifies tx
      ensures tx.Contents() == TombstoneAll(cfg, old(tx.Contents()), ctx, rows, stamps)
    {
      assert rows[0..] == rows && stamps[0..] == stamps;
      for i := 0 to |rows|
        invariant forall key :: key in rows ==> key in tx.records
        invariant TombstoneAll(cfg, old(tx.Contents()), ctx, rows, stamps) ==
                    TombstoneAll(cfg, tx.Contents(), ctx, rows[i..], stamps[i..])
      {
        hide AnyLive, CategoryAfter, NextRecord;
        assert rows[i..][1..] == rows[i + 1..] && stamps[i..][1..] == stamps[i + 1..];
        var current := tx.records[rows[i]];
        var _ := Accept(tx, ctx.clientId, Edit(stamps[i].operationId, rows[i], current.category, current.revision),
                        current.payload, true, Some(current), stamps[i].now);
      }
      assert rows[|rows|..] == [] && stamps[|rows|..] == [];
    }

    /** Tombstones the listed rows of a plan one by one, in one transaction. */
    method ExecuteFirstSyncPlan(ctx: Context, plan: Plan, request: PlanRequest, now: int, rows: seq<Key>,
                                stamps: seq<Stamp>)
      returns (answer: Result<seq<Key>, Error>)
      requires |stamps| == |rows|
      requires ctx.scope in spaces ==> ListsLive(spaces[ctx.scope], plan.categories, rows)
      modifies this
      ensures ctx.scope in old(spaces) ==>
                var reply := ExecuteFirstSync(cfg, old(spaces)[ctx.scope], ctx, plan, request, now, rows, stamps);
                answer == reply.answer && spaces == old(spaces)[ctx.scope := reply.space]
      ensures ctx.scope !in old(spaces) ==>
                spaces == old(spaces)
                  && answer == Err(if PlanMatches(plan, ctx, request, now) then ScopeNotFound else FirstSyncPlanChanged)
    {
      if !PlanMatches(plan, ctx, request, now) {
        return Err(FirstSyncPlanChanged);
      }
      if ctx.scope !in spaces {
        return Err(ScopeNotFound);
      }
      var state := spaces[ctx.scope];
      if request.mode.ServerWins? {
        return if Impact(state, plan.categories) != plan.impact then Err(FirstSyncImpactChanged) else Ok([]);
      }
      if !EpochAllows(state, ctx) {
        return Err(RestoreEpochChanged);
      }
      if Impact(state, plan.categories) != plan.impact {
        return Err(FirstSyncImpactChanged);
      }
      var tx := new RecordTransaction(state);
      TombstoneRows(tx, ctx, rows, stamps);
      var working := tx.Snapshot();
      spaces := spaces[ctx.scope := working];
      answer := Ok(rows);
    }

    method AdvanceEpoch(scope: Scope) returns (answer: Result<nat, Error>)
      modifies this
      ensures scope in old(spaces) ==>
                var s := old(spaces)[scope];
                && answer == Ok(s.restoreEpoch + 1)
                && Replication.AdvanceEpoch(s) ==
                   s.(restoreEpoch := s.restoreEpoch + 1, floorSequence := s.nextSequence + 1, changes := [])
                && spaces == old(spaces)[scope := Replication.AdvanceEpoch(s)]
      ensures scope !in old(spaces) ==> spaces == old(spaces) && answer == Err(ScopeNotFound)
    {
      if scope !in spaces {
        return Err(ScopeNotFound);
      }
      var tx := new RecordTransaction(spaces[scope]);
      tx.restoreEpoch := tx.restoreEpoch + 1;
      tx.floorSequence := tx.nextSequence + 1;
      tx.changes := [];
      var working := tx.Snapshot();
      spaces := spaces[scope := working];
      answer := Ok(tx.restoreEpoch);
    }

    method MoveFloor(scope: Scope, sequence: int) returns (answer: Result<int, Error>)
      modifies this
      ensures scope in old(spaces) ==>
                && answer == Ok(sequence)
                && SetFloor(old(spaces)[scope], sequence) == old(spaces)[scope].(floorSequence := sequence)
                && spaces == old(spaces)[scope := SetFloor(old(spaces)[scope], sequence)]
      ensures scope !in old(spaces) ==> spaces == old(spaces) && answer == Err(ScopeNotFound)
    {
      if scope !in spaces {
        return Err(ScopeNotFound);
      }
      var tx := new RecordTransaction(spaces[scope]);
      tx.floorSequence := sequence;
      var working := tx.Snapshot();
      spaces := spaces[scope := working];
      answer := Ok(sequence);
    }
  }
}
