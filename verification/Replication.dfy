/**
  The replicated state of one space and the transactions that change it, as functions from state
  to state. Timestamps, fresh identifiers and the schema verdict on a payload are inputs.
 */
module Replication {
  import opened Wrappers
  import opened Schema
  import opened Merging

  type Id = string

  const DAY := 86_400_000

  datatype Scope = Scope(accountId: Id, spaceId: Id)

  /** The authenticated caller; the epoch is checked only when the caller names one. */
  datatype Context = Context(scope: Scope, clientId: Id, restoreEpoch: Option<nat>)

  datatype Config = Config(tombstoneDays: nat, conflictDays: nat, valid: (EntityType, Payload) -> bool)

  datatype Key = Key(entityType: EntityType, entityId: Id)

  datatype Kind = Upsert | Delete | ResolveConflict

  datatype Operation = Operation(
    operationId: Id, key: Key, category: Category, baseRevision: Option<nat>, kind: Kind,
    payload: Option<Payload>, conflictId: Option<Id>)
  {
    function Base(): nat { baseRevision.GetOr(0) }

    predicate WellFormed() {
      && (kind.Delete? <==> payload.None?)
      && (kind.ResolveConflict? ==> conflictId.Some?)
    }
  }

  datatype Record = Record(
    key: Key, category: Category, revision: nat, updatedAt: int, origin: Id, deleted: bool,
    payload: Option<Payload>, sequence: nat, retainUntil: Option<int>)

  datatype VersionKey = VersionKey(key: Key, revision: nat)

  datatype Version = Version(record: Record, baseRevision: nat, operationId: Id)

  datatype Reason = StaleEditAfterDelete | StaleRevision | ConflictCopy | FieldConflict | StaleResolution

  datatype ConflictStatus = Unresolved | Resolved(revision: nat, at: int)

  /** An edit that was not applied, together with what it was refused for. */
  datatype Clash = Clash(
    conflictId: Id, scope: Scope, key: Key, category: Category, baseRevision: nat, currentRevision: nat,
    currentPayload: Option<Payload>, incomingPayload: Option<Payload>, currentOrigin: Option<Id>,
    incomingOrigin: Id, changedFields: set<string>, reason: Reason,
    createdAt: int, retainUntil: int, sequence: nat)

  datatype Conflict = Conflict(clash: Clash, status: ConflictStatus)

  datatype Body = Stored(tombstone: bool, restored: bool, record: Record) | Conflicting(clash: Clash)

  /** One entry of the change log. */
  datatype Change = Change(
    sequence: nat, category: Category, key: Key, revision: nat, body: Body, origin: Id, serverTime: int)

  datatype Outcome =
    | Accepted(record: Record, sequence: nat, merged: bool, resolvedConflictId: Option<Id>)
    | Conflicted(conflictId: Id, currentRevision: nat, sequence: nat)

  /** What the ledger remembers of a committed operation; the request stands for its hash. */
  datatype LedgerEntry = LedgerEntry(request: Operation, outcome: Outcome, createdAt: int)

  datatype LedgerKey = LedgerKey(clientId: Id, operationId: Id)

  datatype CategoryState = CategoryState(present: bool, clearGeneration: nat, updatedAt: int, lastSequence: nat)

  datatype Space = Space(
    scope: Scope, restoreEpoch: nat, nextSequence: nat, floorSequence: int,
    records: map<Key, Record>, versions: map<VersionKey, Version>,
    operations: map<LedgerKey, LedgerEntry>, changes: seq<Change>,
    conflicts: map<Id, Conflict>, categories: map<Category, CategoryState>)

  datatype Rejection = InvalidOperation | CategoryMismatch | InvalidEntity

  datatype Response = Committed(outcome: Outcome) | Duplicate(outcome: Outcome) | Rejected(code: Rejection)

  datatype Error =
    | ScopeNotFound | RestoreEpochChanged | OperationReused | ResourceNotFound | StaleResolutionRequest
    | InvalidPayload | TechnicalLimitExceeded | FirstSyncPlanChanged | FirstSyncImpactChanged

  /** A transaction's final state and answer; on an error the state is the one it started from. */
  datatype Reply<+T> = Reply(space: Space, answer: Result<T, Error>)

  datatype Applied = Applied(space: Space, outcome: Outcome)

  function NewSpace(scope: Scope, restoreEpoch: nat): Space {
    Space(scope, restoreEpoch, 0, 1, map[], map[], map[], [], map[], map[])
  }

  function Current(s: Space, key: Key): Option<Record> {
    if key in s.records then Some(s.records[key]) else None
  }

  function VersionAt(s: Space, key: Key, revision: nat): Option<Version> {
    if VersionKey(key, revision) in s.versions then Some(s.versions[VersionKey(key, revision)]) else None
  }

  function RevisionOf(current: Option<Record>): nat {
    if current.Some? then current.value.revision else 0
  }

  predicate AnyLive(records: map<Key, Record>, category: Category) {
    exists key | key in records :: records[key].category == category && !records[key].deleted
  }

  /** The part of an operation that a new revision records. */
  datatype Edit = Edit(operationId: Id, key: Key, category: Category, baseRevision: nat)

  function EditOf(op: Operation): Edit {
    Edit(op.operationId, op.key, op.category, op.Base())
  }

  /** The next revision of an entity, stamped with the next sequence number. */
  function NextRecord(cfg: Config, s: Space, clientId: Id, edit: Edit, payload: Option<Payload>, deleted: bool,
                      now: int): Record {
    Record(edit.key, edit.category, RevisionOf(Current(s, edit.key)) + 1, now, clientId, deleted, payload,
           s.nextSequence + 1, if deleted then Some(now + cfg.tombstoneDays * DAY) else None)
  }

  function CategoryAfter(s: Space, records: map<Key, Record>, r: Record): CategoryState {
    CategoryState(!r.deleted || AnyLive(records, r.category),
                  if r.category in s.categories then s.categories[r.category].clearGeneration else 0,
                  r.updatedAt, r.sequence)
  }

  /** Adds a revision: a version, the current record, the category summary and a log entry. */
  function Accept(cfg: Config, s: Space, clientId: Id, edit: Edit, payload: Option<Payload>, deleted: bool,
                  now: int): Space {
    var current := Current(s, edit.key);
    var r := NextRecord(cfg, s, clientId, edit, payload, deleted, now);
    var records := s.records[edit.key := r];
    var body := Stored(deleted, !deleted && current.Some? && current.value.deleted, r);
    s.(nextSequence := r.sequence,
       versions := s.versions[VersionKey(edit.key, r.revision) := Version(r, edit.baseRevision, edit.operationId)],
       records := records,
       categories := s.categories[edit.category := CategoryAfter(s, records, r)],
       changes := s.changes + [Change(r.sequence, edit.category, edit.key, r.revision, body, clientId, now)])
  }

  function AcceptOperation(cfg: Config, s: Space, ctx: Context, op: Operation, payload: Option<Payload>, deleted: bool,
                           now: int, merged: bool, resolved: Option<Id>): Applied {
    var r := NextRecord(cfg, s, ctx.clientId, EditOf(op), payload, deleted, now);
    Applied(Accept(cfg, s, ctx.clientId, EditOf(op), payload, deleted, now), Accepted(r, r.sequence, merged, resolved))
  }

  function NewClash(cfg: Config, s: Space, ctx: Context, op: Operation, now: int, reason: Reason,
                    changedFields: set<string>, newId: Id): Clash {
    var current := Current(s, op.key);
    Clash(newId, ctx.scope, op.key, op.category, op.Base(), RevisionOf(current),
             if current.Some? then current.value.payload else None, op.payload,
             if current.Some? then Some(current.value.origin) else None,
             ctx.clientId, changedFields, reason, now, now + cfg.conflictDays * DAY, s.nextSequence + 1)
  }

  /** Keeps a refused edit as an unresolved conflict; the record itself does not move. */
  function AddConflict(cfg: Config, s: Space, ctx: Context, op: Operation, now: int, reason: Reason,
                       changedFields: set<string>, newId: Id): Applied {
    var c := NewClash(cfg, s, ctx, op, now, reason, changedFields, newId);
    var entry := Change(c.sequence, op.category, op.key, c.currentRevision, Conflicting(c), ctx.clientId, now);
    var t := s.(nextSequence := c.sequence,
                conflicts := s.conflicts[newId := Conflict(c, Unresolved)],
                changes := s.changes + [entry]);
    Applied(t, Conflicted(newId, c.currentRevision, c.sequence))
  }

  predicate IsStale(op: Operation, current: Option<Record>) {
    if current.Some? then op.Base() != current.value.revision else op.Base() != 0
  }

  function ApplyStale(cfg: Config, s: Space, ctx: Context, op: Operation, now: int, newId: Id): Applied {
    var current := Current(s, op.key);
    var base := VersionAt(s, op.key, op.Base());
    if PolicyOf(op.key.entityType).LastWriterWins? && op.kind.Upsert? then
      AcceptOperation(cfg, s, ctx, op, op.payload, false, now, false, None)
    else if current.None? || base.None? || current.value.deleted || op.kind.Delete? then
      AddConflict(cfg, s, ctx, op, now,
                  if current.Some? && current.value.deleted then StaleEditAfterDelete else StaleRevision, {}, newId)
    else
      var before, local, remote := Fields(base.value.record.payload), Fields(current.value.payload), Fields(op.payload);
      var fields := Merging.Conflicting(before, local, remote);
      if fields == {} then
        AcceptOperation(cfg, s, ctx, op, Some(Merged(before, local, remote)), false, now, true, None)
      else
        AddConflict(cfg, s, ctx, op, now,
                    if PolicyOf(op.key.entityType).KeepCopy? then ConflictCopy else FieldConflict, fields, newId)
  }

  function MarkResolved(s: Space, conflictId: Id, revision: nat, now: int): Space
    requires conflictId in s.conflicts
  {
    s.(conflicts := s.conflicts[conflictId := s.conflicts[conflictId].(status := Resolved(revision, now))])
  }

  function ApplyResolution(cfg: Config, s: Space, ctx: Context, op: Operation, now: int,
                           newId: Id): Result<Applied, Error>
    requires op.conflictId.Some?
  {
    var id := op.conflictId.value;
    var current := Current(s, op.key);
    if id !in s.conflicts || s.conflicts[id].clash.scope != ctx.scope || s.conflicts[id].clash.key != op.key then
      Err(ResourceNotFound)
    else if !s.conflicts[id].status.Unresolved? || current.None? || op.baseRevision != Some(current.value.revision) then
      Ok(AddConflict(cfg, s, ctx, op, now, StaleResolution, {}, newId))
    else
      var applied := AcceptOperation(cfg, s, ctx, op, op.payload, false, now, false, Some(id));
      Ok(applied.(space := MarkResolved(applied.space, id, applied.outcome.record.revision, now)))
  }

  /** The effect of an operation that is not in the ledger yet, before the ledger entry is added. */
  function Effect(cfg: Config, s: Space, ctx: Context, op: Operation, now: int, newId: Id): Result<Applied, Error>
    requires op.WellFormed()
  {
    var current := Current(s, op.key);
    if op.kind.ResolveConflict? then
      ApplyResolution(cfg, s, ctx, op, now, newId)
    else if IsStale(op, current) then
      Ok(ApplyStale(cfg, s, ctx, op, now, newId))
    else if op.kind.Delete? then
      Ok(AcceptOperation(cfg, s, ctx, op, if current.Some? then current.value.payload
                         else None, true, now, false, None))
    else
      Ok(AcceptOperation(cfg, s, ctx, op, op.payload, false, now, false, None))
  }

  /** The schema verdict on an operation, taken before any transaction starts. */
  function Refusal(cfg: Config, op: Operation): Option<Rejection> {
    if !op.WellFormed() then Some(InvalidOperation)
    else if op.kind.Delete? then None
    else if CategoryOf(op.key.entityType) != op.category then Some(CategoryMismatch)
    else if !cfg.valid(op.key.entityType, op.payload.value) then Some(InvalidEntity)
    else None
  }

  predicate EpochAllows(s: Space, ctx: Context) {
    ctx.restoreEpoch.None? || ctx.restoreEpoch.value == s.restoreEpoch
  }

  function Remember(s: Space, ctx: Context, op: Operation, outcome: Outcome, now: int): Space {
    s.(operations := s.operations[LedgerKey(ctx.clientId, op.operationId) := LedgerEntry(op, outcome, now)])
  }

  /** One pushed operation: schema check, replay check, effect and ledger entry. */
  function ApplyOperation(cfg: Config, s: Space, ctx: Context, op: Operation, now: int, newId: Id): Reply<Response> {
    var ledgerKey := LedgerKey(ctx.clientId, op.operationId);
    if Refusal(cfg, op).Some? then
      Reply(s, Ok(Rejected(Refusal(cfg, op).value)))
    else if !EpochAllows(s, ctx) then
      Reply(s, Err(RestoreEpochChanged))
    else if ledgerKey in s.operations then
      if s.operations[ledgerKey].request != op then Reply(s, Err(OperationReused))
      else Reply(s, Ok(Duplicate(s.operations[ledgerKey].outcome)))
    else
      match Effect(cfg, s, ctx, op, now, newId)
      case Err(e) => Reply(s, Err(e))
      case Ok(applied) => Reply(Remember(applied.space, ctx, op, applied.outcome, now), Ok(Committed(applied.outcome)))
  }

  datatype Resolution = TakeCurrent | TakeIncoming | Manual(payload: Option<Payload>)

  datatype ResolveRequest = ResolveRequest(conflictId: Id, resolution: Resolution, baseRevision: nat)

  datatype Resolved =
    | NewlyResolved(record: Record, sequence: nat)
    | AlreadyResolved(version: Option<Version>)

  function ResolutionPayload(c: Clash, resolution: Resolution): Option<Payload> {
    match resolution
    case TakeCurrent => c.currentPayload
    case TakeIncoming => c.incomingPayload
    case Manual(payload) => payload
  }

  /** A conflict settled by the account owner, on behalf of the client whose edit is current. */
  function ResolveForAccount(cfg: Config, s: Space, ctx: Context, request: ResolveRequest, now: int,
                             operationId: Id): Reply<Resolved> {
    var id := request.conflictId;
    if !EpochAllows(s, ctx) then
      Reply(s, Err(RestoreEpochChanged))
    else if id !in s.conflicts || s.conflicts[id].clash.scope != ctx.scope then
      Reply(s, Err(ResourceNotFound))
    else
      var c, status := s.conflicts[id].clash, s.conflicts[id].status;
      if status.Resolved? then
        Reply(s, Ok(AlreadyResolved(VersionAt(s, c.key, status.revision))))
      else
        var current := Current(s, c.key);
        var payload := ResolutionPayload(c, request.resolution);
        if current.None? || current.value.revision != request.baseRevision then
          Reply(s, Err(StaleResolutionRequest))
        else if CategoryOf(c.key.entityType) != c.category || payload.None?
          || !cfg.valid(c.key.entityType, payload.value) then
          Reply(s, Err(InvalidPayload))
        else
          var client := c.currentOrigin.GetOr(c.incomingOrigin);
          var edit := Edit(operationId, c.key, c.category, current.value.revision);
          var r := NextRecord(cfg, s, client, edit, payload, false, now);
          Reply(MarkResolved(Accept(cfg, s, client, edit, payload, false, now), id, r.revision, now),
                Ok(NewlyResolved(r, r.sequence)))
  }

  /** An empty selection stands for every category. */
  predicate Selects(categories: set<Category>, category: Category) {
    categories == {} || category in categories
  }

  function Selected(records: map<Key, Record>, categories: set<Category>): map<Key, Record> {
    map key | key in records && Selects(categories, records[key].category) :: records[key]
  }

  /** What the impact hash of a first-sync plan covers of one row. */
  datatype Tag = Tag(category: Category, revision: nat, deleted: bool)

  function Impact(s: Space, categories: set<Category>): map<Key, Tag> {
    map key | key in Selected(s.records, categories)
      :: Tag(s.records[key].category, s.records[key].revision, s.records[key].deleted)
  }

  datatype Mode = LocalWins | ServerWins | CategoryClear

  datatype Plan = Plan(
    scope: Scope, clientId: Id, planId: Id, mode: Mode, categories: set<Category>,
    recoveryPointId: Id, impact: map<Key, Tag>, expiresAt: int)

  datatype PlanRequest = PlanRequest(planId: Id, recoveryPointId: Id, mode: Mode, confirmation: string)

  function Confirmation(mode: Mode): string {
    match mode
    case LocalWins => "REPLACE SERVER"
    case ServerWins => "REPLACE THIS DEVICE"
    case CategoryClear => "DELETE SERVER CATEGORY DATA"
  }

  predicate PlanMatches(plan: Plan, ctx: Context, request: PlanRequest, now: int) {
    && plan.scope == ctx.scope && plan.clientId == ctx.clientId
    && plan.planId == request.planId && plan.recoveryPointId == request.recoveryPointId
    && plan.mode == request.mode && request.confirmation == Confirmation(request.mode)
    && now < plan.expiresAt
  }

  /** The operation identifier and clock reading used for one tombstone of a first sync. */
  datatype Stamp = Stamp(operationId: Id, now: int)

  /** The live rows of a selection, in the order in which they are listed. */
  ghost predicate ListsLive(s: Space, categories: set<Category>, rows: seq<Key>) {
    && (forall i, j :: 0 <= i < j < |rows| ==> rows[i] != rows[j])
    && (forall key :: key in rows <==>
          key in s.records && Selects(categories, s.records[key].category) && !s.records[key].deleted)
  }

  function Tombstone(cfg: Config, s: Space, ctx: Context, key: Key, stamp: Stamp): Space
    requires key in s.records
  {
    var r := s.records[key];
    Accept(cfg, s, ctx.clientId, Edit(stamp.operationId, key, r.category, r.revision), r.payload, true, stamp.now)
  }

  function TombstoneAll(cfg: Config, s: Space, ctx: Context, rows: seq<Key>, stamps: seq<Stamp>): (t: Space)
    requires |stamps| == |rows|
    requires forall key :: key in rows ==> key in s.records
    ensures s.records.Keys == t.records.Keys
    decreases |rows|
  {
    if rows == [] then s
    else TombstoneAll(cfg, Tombstone(cfg, s, ctx, rows[0], stamps[0]), ctx, rows[1..], stamps[1..])
  }

  function ExecuteFirstSync(cfg: Config, s: Space, ctx: Context, plan: Plan, request: PlanRequest, now: int,
                            rows: seq<Key>, stamps: seq<Stamp>): Reply<seq<Key>>
    requires |stamps| == |rows|
    requires forall key :: key in rows ==> key in s.records
  {
    if !PlanMatches(plan, ctx, request, now) then Reply(s, Err(FirstSyncPlanChanged))
    else if request.mode.ServerWins? then
      if Impact(s, plan.categories) != plan.impact then Reply(s, Err(FirstSyncImpactChanged)) else Reply(s, Ok([]))
    else if !EpochAllows(s, ctx) then Reply(s, Err(RestoreEpochChanged))
    else if Impact(s, plan.categories) != plan.impact then Reply(s, Err(FirstSyncImpactChanged))
    else Reply(TombstoneAll(cfg, s, ctx, rows, stamps), Ok(rows))
  }

  /** A new restore epoch starts an empty log above every sequence number used so far. */
  function AdvanceEpoch(s: Space): Space {
    s.(restoreEpoch := s.restoreEpoch + 1, floorSequence := s.nextSequence + 1, changes := [])
  }

  function SetFloor(s: Space, sequence: int): Space {
    s.(floorSequence := sequence)
  }
}
