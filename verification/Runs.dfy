/**
  Events of a space, the primitive moves they are made of, and what every run keeps: the record map
  and the version history agree, every sequence number has one owner, nothing recorded is lost.
 */
module Runs {
  import opened Wrappers
  import opened Schema
  import opened Merging
  import opened Replication

  datatype Event =
    | Push(ctx: Context, op: Operation, now: int, newId: Id)
    | Resolve(ctx: Context, request: ResolveRequest, now: int, operationId: Id)
    | FirstSync(ctx: Context, plan: Plan, planRequest: PlanRequest, now: int, rows: seq<Key>, stamps: seq<Stamp>)
    | NewEpoch
    | MoveFloor(sequence: int)

  /** Callers are routed to the space of their own scope, and fresh identifiers are fresh. */
  ghost predicate Possible(s: Space, e: Event) {
    match e
    case Push(ctx, _, _, newId) => ctx.scope == s.scope && newId !in s.conflicts
    case Resolve(ctx, _, _, _) => ctx.scope == s.scope
    case FirstSync(ctx, plan, _, _, rows, stamps) =>
      ctx.scope == s.scope && |stamps| == |rows| && ListsLive(s, plan.categories, rows)
    case NewEpoch => true
    case MoveFloor(_) => true
  }

  ghost function Step(cfg: Config, s: Space, e: Event): Space
    requires Possible(s, e)
  {
    match e
    case Push(ctx, op, now, newId) => ApplyOperation(cfg, s, ctx, op, now, newId).space
    case Resolve(ctx, request, now, operationId) => ResolveForAccount(cfg, s, ctx, request, now, operationId).space
    case FirstSync(ctx, plan, request, now, rows, stamps) =>
      ExecuteFirstSync(cfg, s, ctx, plan, request, now, rows, stamps).space
    case NewEpoch => AdvanceEpoch(s)
    case MoveFloor(sequence) => SetFloor(s, sequence)
  }

  ghost predicate PossibleRun(cfg: Config, s: Space, events: seq<Event>)
    decreases |events|
  {
    events == [] || (Possible(s, events[0]) && PossibleRun(cfg, Step(cfg, s, events[0]), events[1..]))
  }

  ghost function Run(cfg: Config, s: Space, events: seq<Event>): Space
    requires PossibleRun(cfg, s, events)
    decreases |events|
  {
    if events == [] then s else Run(cfg, Step(cfg, s, events[0]), events[1..])
  }

  // ---------------------------------------------------------------- primitive moves

  datatype Move =
    | AcceptMove(clientId: Id, edit: Edit, payload: Option<Payload>, deleted: bool, now: int)
    | ConflictMove(ctx: Context, op: Operation, now: int, reason: Reason, fields: set<string>, newId: Id)
    | ResolveMove(conflictId: Id, revision: nat, now: int)
    | RememberMove(ctx: Context, op: Operation, outcome: Outcome, now: int)
    | EpochMove
    | FloorMove(sequence: int)

  ghost predicate Playable(s: Space, m: Move) {
    match m
    case AcceptMove(_, edit, payload, deleted, _) => deleted || payload.Some?
    case ConflictMove(ctx, _, _, _, _, newId) => ctx.scope == s.scope && newId !in s.conflicts
    case ResolveMove(id, revision, _) =>
      id in s.conflicts && s.conflicts[id].status.Unresolved?
        && VersionKey(s.conflicts[id].clash.key, revision) in s.versions
    case RememberMove(ctx, op, outcome, _) =>
      LedgerKey(ctx.clientId, op.operationId) !in s.operations
        && Retrievable(s.versions, s.conflicts, ctx.clientId, op, outcome)
    case EpochMove => true
    case FloorMove(_) => true
  }

  ghost function Play(cfg: Config, s: Space, m: Move): Space
    requires Playable(s, m)
  {
    match m
    case AcceptMove(clientId, edit, payload, deleted, now) => Accept(cfg, s, clientId, edit, payload, deleted, now)
    case ConflictMove(ctx, op, now, reason, fields, newId) =>
      AddConflict(cfg, s, ctx, op, now, reason, fields, newId).space
    case ResolveMove(id, revision, now) => MarkResolved(s, id, revision, now)
    case RememberMove(ctx, op, outcome, now) => Remember(s, ctx, op, outcome, now)
    case EpochMove => AdvanceEpoch(s)
    case FloorMove(sequence) => SetFloor(s, sequence)
  }

  ghost predicate PlayableAll(cfg: Config, s: Space, moves: seq<Move>)
    decreases |moves|
  {
    moves == [] || (Playable(s, moves[0]) && PlayableAll(cfg, Play(cfg, s, moves[0]), moves[1..]))
  }

  ghost function PlayAll(cfg: Config, s: Space, moves: seq<Move>): Space
    requires PlayableAll(cfg, s, moves)
    decreases |moves|
  {
    if moves == [] then s else PlayAll(cfg, Play(cfg, s, moves[0]), moves[1..])
  }

  // ---------------------------------------------------------------- what is kept

  type Records = map<Key, Record>
  type Versions = map<VersionKey, Version>
  type Conflicts = map<Id, Conflict>
  type Ledger = map<LedgerKey, LedgerEntry>

  /** Every record is the version of its newest revision. */
  ghost predicate Newest(records: Records, versions: Versions) {
    forall key :: key in records ==>
      && records[key].key == key
      && 1 <= records[key].revision
      && (records[key].deleted || records[key].payload.Some?)
      && VersionKey(key, records[key].revision) in versions
      && versions[VersionKey(key, records[key].revision)].record == records[key]
  }

  /** The revisions of an entity are dense from 1. */
  ghost predicate Dense(records: Records, versions: Versions) {
    forall key, revision :: key in records && 1 <= revision <= records[key].revision ==>
      VersionKey(key, revision) in versions
  }

  /** Versions are filed under their own key and revision, none beyond the record. */
  ghost predicate Filed(records: Records, versions: Versions, last: nat) {
    forall v :: v in versions ==>
      && versions[v].record.key == v.key
      && versions[v].record.revision == v.revision
      && 1 <= versions[v].record.sequence <= last
      && v.key in records
      && 1 <= v.revision <= records[v.key].revision
  }

  /** Later revisions of an entity carry later sequence numbers. */
  ghost predicate Ordered(versions: Versions) {
    forall v, w :: v in versions && w in versions && v.key == w.key && v.revision < w.revision ==>
      versions[v].record.sequence < versions[w].record.sequence
  }

  ghost predicate ConflictsFiled(scope: Scope, versions: Versions, conflicts: Conflicts, last: nat) {
    forall id :: id in conflicts ==>
      && conflicts[id].clash.conflictId == id
      && conflicts[id].clash.scope == scope
      && 1 <= conflicts[id].clash.sequence <= last
      && (conflicts[id].status.Resolved? ==>
          VersionKey(conflicts[id].clash.key, conflicts[id].status.revision) in versions)
  }

  /** A log entry says what was recorded under its sequence number. */
  ghost predicate Describes(c: Change, versions: Versions, conflicts: Conflicts) {
    match c.body
    case Stored(_, _, r) =>
      && c.sequence == r.sequence && c.category == r.category && c.key == r.key && c.revision == r.revision
      && VersionKey(c.key, c.revision) in versions && versions[VersionKey(c.key, c.revision)].record == r
    case Conflicting(k) =>
      && c.sequence == k.sequence && c.category == k.category && c.key == k.key
      && k.conflictId in conflicts && conflicts[k.conflictId].clash == k
  }

  ghost predicate Described(changes: seq<Change>, versions: Versions, conflicts: Conflicts) {
    forall i :: 0 <= i < |changes| ==> Describes(changes[i], versions, conflicts)
  }

  /** The log of an epoch is gap-free and ends at the last number given out. */
  ghost predicate DenseLog(changes: seq<Change>, last: nat) {
    && |changes| <= last
    && (forall i :: 0 <= i < |changes| ==> changes[i].sequence == last - |changes| + i + 1)
  }

  /** Every field the edit changed from the payload it was based on is in the stored payload. */
  ghost predicate Holds(before: Payload, edit: Payload, stored: Payload) {
    forall name :: ChangedIn(before, edit, name) ==> Field(stored, name) == Field(edit, name)
  }

  /** A committed operation can be found again: as a version holding its edit, or as a conflict. */
  ghost predicate Retrievable(versions: Versions, conflicts: Conflicts, clientId: Id, op: Operation, outcome: Outcome) {
    match outcome
    case Accepted(r, sequence, merged, _) =>
      && VersionKey(op.key, r.revision) in versions
      && versions[VersionKey(op.key, r.revision)] == Version(r, op.Base(), op.operationId)
      && r.sequence == sequence && r.origin == clientId
      && (if op.kind.Delete? then KeepsPayload(versions, op.key, r) else HoldsEdit(versions, op, r, merged))
    case Conflicted(id, _, sequence) =>
      && id in conflicts && conflicts[id].clash.key == op.key && conflicts[id].clash.sequence == sequence
      && conflicts[id].clash.incomingPayload == op.payload && conflicts[id].clash.incomingOrigin == clientId
      && conflicts[id].clash.baseRevision == op.Base()
  }

  /** A tombstone keeps the payload of the revision it replaces. */
  ghost predicate KeepsPayload(versions: Versions, key: Key, r: Record) {
    && r.deleted
    && (r.revision <= 1 ==> r.payload.None?)
    && (r.revision > 1 ==>
          && VersionKey(key, r.revision - 1) in versions
          && r.payload == versions[VersionKey(key, r.revision - 1)].record.payload)
  }

  ghost predicate HoldsEdit(versions: Versions, op: Operation, r: Record, merged: bool) {
    && !r.deleted && r.payload.Some? && op.payload.Some?
    && (!merged ==> r.payload == op.payload)
    && (merged ==>
          && VersionKey(op.key, op.Base()) in versions
          && Holds(Fields(versions[VersionKey(op.key, op.Base())].record.payload), op.payload.value, r.payload.value))
  }

  ghost predicate LedgerHonest(versions: Versions, conflicts: Conflicts, operations: Ledger) {
    forall k :: k in operations ==>
      && operations[k].request.operationId == k.operationId
      && Retrievable(versions, conflicts, k.clientId, operations[k].request, operations[k].outcome)
  }

  ghost predicate Inv(s: Space) {
    && Newest(s.records, s.versions)
    && Dense(s.records, s.versions)
    && Filed(s.records, s.versions, s.nextSequence)
    && Ordered(s.versions)
    && ConflictsFiled(s.scope, s.versions, s.conflicts, s.nextSequence)
    && Described(s.changes, s.versions, s.conflicts)
    && DenseLog(s.changes, s.nextSequence)
    && LedgerHonest(s.versions, s.conflicts, s.operations)
  }

  ghost predicate VersionsGrow(former: Versions, later: Versions) {
    forall v :: v in former ==> v in later && later[v] == former[v]
  }

  /** Every version that is added carries a number above the given one. */
  ghost predicate NewVersionsAbove(former: Versions, later: Versions, last: nat) {
    forall v :: v in later && v !in former ==> last < later[v].record.sequence
  }

  ghost predicate LedgerGrows(former: Ledger, later: Ledger) {
    forall k :: k in former ==> k in later && later[k] == former[k]
  }

  /** A conflict stays as filed, and once resolved it never changes again. */
  ghost predicate ConflictsGrow(former: Conflicts, later: Conflicts) {
    forall id :: id in former ==>
      && id in later && later[id].clash == former[id].clash
      && (former[id].status.Resolved? ==> later[id] == former[id])
  }

  ghost predicate RecordsGrow(former: Records, later: Records) {
    forall key :: key in former ==> key in later && former[key].revision <= later[key].revision
  }

  /** The later state t extends the earlier state s: histories only grow. */
  ghost predicate Grows(s: Space, t: Space) {
    && s.scope == t.scope
    && s.nextSequence <= t.nextSequence && s.restoreEpoch <= t.restoreEpoch
    && VersionsGrow(s.versions, t.versions) && NewVersionsAbove(s.versions, t.versions, s.nextSequence)
    && LedgerGrows(s.operations, t.operations)
    && ConflictsGrow(s.conflicts, t.conflicts)
    && RecordsGrow(s.records, t.records)
    && (s.restoreEpoch == t.restoreEpoch ==>
          s.changes <= t.changes && |t.changes| - |s.changes| == t.nextSequence - s.nextSequence)
  }

  lemma GrowsTransitive(s: Space, t: Space, u: Space)
    requires Grows(s, t) && Grows(t, u)
    ensures Grows(s, u)
  {
  }

  // ---------------------------------------------------------------- growing keeps descriptions

  lemma RetrievableGrows(v: Versions, c: Conflicts, v': Versions, c': Conflicts, clientId: Id, op: Operation,
                         outcome: Outcome)
    requires VersionsGrow(v, v') && ConflictsGrow(c, c')
    requires Retrievable(v, c, clientId, op, outcome)
    ensures Retrievable(v', c', clientId, op, outcome)
  {
  }

  lemma DescriptionsGrow(s: Space, v: Versions, c: Conflicts)
    requires VersionsGrow(s.versions, v) && ConflictsGrow(s.conflicts, c)
    requires Described(s.changes, s.versions, s.conflicts) && LedgerHonest(s.versions, s.conflicts, s.operations)
    ensures Described(s.changes, v, c) && LedgerHonest(v, c, s.operations)
  {
    forall k | k in s.operations
      ensures Retrievable(v, c, k.clientId, s.operations[k].request, s.operations[k].outcome)
    {
      RetrievableGrows(s.versions, s.conflicts, v, c, k.clientId, s.operations[k].request, s.operations[k].outcome);
    }
    forall i | 0 <= i < |s.changes| ensures Describes(s.changes[i], v, c) {
      assert Describes(s.changes[i], s.versions, s.conflicts);
    }
  }

  lemma DescribedAppend(changes: seq<Change>, c: Change, versions: Versions, conflicts: Conflicts)
    requires Described(changes, versions, conflicts) && Describes(c, versions, conflicts)
    ensures Described(changes + [c], versions, conflicts)
  {
  }

  // ---------------------------------------------------------------- each move keeps the invariant

  lemma NextRevision(records: Records, versions: Versions, last: nat, r: Record, v: Version)
    requires Newest(records, versions) && Dense(records, versions) && Filed(records, versions, last)
    requires r.revision == (if r.key in records then records[r.key].revision else 0) + 1
    requires r.deleted || r.payload.Some?
    requires r.sequence == last + 1 && v.record == r
    ensures var records', versions' := records[r.key := r], versions[VersionKey(r.key, r.revision) := v];
            Newest(records', versions') && Dense(records', versions') && Filed(records', versions', last + 1)
  {
  }

  lemma NextRevisionGrows(records: Records, versions: Versions, last: nat, r: Record, v: Version)
    requires Filed(records, versions, last) && Ordered(versions)
    requires r.revision == (if r.key in records then records[r.key].revision else 0) + 1
    requires r.sequence == last + 1 && v.record == r
    ensures var records', versions' := records[r.key := r], versions[VersionKey(r.key, r.revision) := v];
            Ordered(versions') && VersionsGrow(versions, versions') && RecordsGrow(records, records')
  {
    assert VersionKey(r.key, r.revision) !in versions;
  }

  lemma LogAppend(changes: seq<Change>, last: nat, c: Change)
    requires DenseLog(changes, last) && c.sequence == last + 1
    ensures DenseLog(changes + [c], last + 1)
  {
  }

  lemma ConflictsAppend(scope: Scope, versions: Versions, conflicts: Conflicts, last: nat, c: Clash)
    requires ConflictsFiled(scope, versions, conflicts, last)
    requires c.conflictId !in conflicts && c.scope == scope && c.sequence == last + 1
    ensures ConflictsFiled(scope, versions, conflicts[c.conflictId := Conflict(c, Unresolved)], last + 1)
    ensures ConflictsGrow(conflicts, conflicts[c.conflictId := Conflict(c, Unresolved)])
  {
  }

  lemma FiledLater(records: Records, versions: Versions, last: nat)
    requires Filed(records, versions, last)
    ensures Filed(records, versions, last + 1)
  {
  }

  lemma ConflictsKept(scope: Scope, versions: Versions, versions': Versions, conflicts: Conflicts, last: nat)
    requires ConflictsFiled(scope, versions, conflicts, last) && VersionsGrow(versions, versions')
    ensures ConflictsFiled(scope, versions', conflicts, last + 1)
  {
  }

  lemma AcceptKeeps(cfg: Config, s: Space, clientId: Id, edit: Edit, payload: Option<Payload>, deleted: bool, now: int)
    requires Inv(s) && (deleted || payload.Some?)
    ensures Inv(Accept(cfg, s, clientId, edit, payload, deleted, now))
    ensures Grows(s, Accept(cfg, s, clientId, edit, payload, deleted, now))
  {
    hide LedgerHonest, Described, DenseLog, Filed, ConflictsFiled, Newest, Dense, Ordered, VersionsGrow, RecordsGrow,
         AnyLive;
    var t := Accept(cfg, s, clientId, edit, payload, deleted, now);
    var r := NextRecord(cfg, s, clientId, edit, payload, deleted, now);
    var v := Version(r, edit.baseRevision, edit.operationId);
    var change := t.changes[|s.changes|];
    assert t.changes == s.changes + [change];
    NextRevision(s.records, s.versions, s.nextSequence, r, v);
    NextRevisionGrows(s.records, s.versions, s.nextSequence, r, v);
    ConflictsKept(s.scope, s.versions, t.versions, s.conflicts, s.nextSequence);
    DescriptionsGrow(s, t.versions, t.conflicts);
    DescribedAppend(s.changes, change, t.versions, t.conflicts);
    LogAppend(s.changes, s.nextSequence, change);
  }

  lemma ConflictKeeps(cfg: Config, s: Space, ctx: Context, op: Operation, now: int, reason: Reason, fields: set<string>,
                      newId: Id)
    requires Inv(s) && ctx.scope == s.scope && newId !in s.conflicts
    ensures Inv(AddConflict(cfg, s, ctx, op, now, reason, fields, newId).space)
    ensures Grows(s, AddConflict(cfg, s, ctx, op, now, reason, fields, newId).space)
  {
    hide LedgerHonest, Described, DenseLog, Filed, ConflictsFiled, ConflictsGrow, Newest, Dense, Ordered;
    var t := AddConflict(cfg, s, ctx, op, now, reason, fields, newId).space;
    var c := NewClash(cfg, s, ctx, op, now, reason, fields, newId);
    var change := Change(c.sequence, op.category, op.key, c.currentRevision, Conflicting(c), ctx.clientId, now);
    assert t.changes == s.changes + [change];
    FiledLater(s.records, s.versions, s.nextSequence);
    ConflictsAppend(s.scope, s.versions, s.conflicts, s.nextSequence, c);
    DescriptionsGrow(s, s.versions, t.conflicts);
    DescribedAppend(s.changes, change, s.versions, t.conflicts);
    LogAppend(s.changes, s.nextSequence, change);
  }

  lemma ResolveKeeps(s: Space, id: Id, revision: nat, now: int)
    requires Inv(s) && id in s.conflicts && s.conflicts[id].status.Unresolved?
    requires VersionKey(s.conflicts[id].clash.key, revision) in s.versions
    ensures Inv(MarkResolved(s, id, revision, now)) && Grows(s, MarkResolved(s, id, revision, now))
  {
    hide Newest, Dense, Filed, Ordered, Described, DenseLog, LedgerHonest;
    var t := MarkResolved(s, id, revision, now);
    DescriptionsGrow(s, t.versions, t.conflicts);
  }

  lemma RememberKeeps(s: Space, ctx: Context, op: Operation, outcome: Outcome, now: int)
    requires Inv(s) && LedgerKey(ctx.clientId, op.operationId) !in s.operations
    requires Retrievable(s.versions, s.conflicts, ctx.clientId, op, outcome)
    ensures Inv(Remember(s, ctx, op, outcome, now)) && Grows(s, Remember(s, ctx, op, outcome, now))
  {
    hide Newest, Dense, Filed, Ordered, Described, DenseLog, ConflictsFiled, Retrievable;
  }

  lemma MoveKeeps(cfg: Config, s: Space, m: Move)
    requires Inv(s) && Playable(s, m)
    ensures Inv(Play(cfg, s, m)) && Grows(s, Play(cfg, s, m))
  {
    hide LedgerHonest, Filed, ConflictsFiled, Newest, Dense, Ordered, Retrievable;
    match m
    case AcceptMove(clientId, edit, payload, deleted, now) =>
      AcceptKeeps(cfg, s, clientId, edit, payload, deleted, now);
    case ConflictMove(ctx, op, now, reason, fields, newId) =>
      ConflictKeeps(cfg, s, ctx, op, now, reason, fields, newId);
    case ResolveMove(id, revision, now) => ResolveKeeps(s, id, revision, now);
    case RememberMove(ctx, op, outcome, now) => RememberKeeps(s, ctx, op, outcome, now);
    case EpochMove =>
    case FloorMove(_) =>
  }

  lemma {:induction false} MovesKeep(cfg: Config, s: Space, moves: seq<Move>)
    requires Inv(s) && PlayableAll(cfg, s, moves)
    ensures Inv(PlayAll(cfg, s, moves)) && Grows(s, PlayAll(cfg, s, moves))
    decreases |moves|
  {
    if moves != [] {
      MoveKeeps(cfg, s, moves[0]);
      MovesKeep(cfg, Play(cfg, s, moves[0]), moves[1..]);
      GrowsTransitive(s, Play(cfg, s, moves[0]), PlayAll(cfg, s, moves));
    }
  }

  // ---------------------------------------------------------------- every event is made of moves

  lemma OneMove(cfg: Config, s: Space, m: Move)
    requires Playable(s, m)
    ensures PlayableAll(cfg, s, [m]) && PlayAll(cfg, s, [m]) == Play(cfg, s, m)
  {
    assert [m][1..] == [];
  }

  lemma {:induction false} MoreMoves(cfg: Config, s: Space, moves: seq<Move>, m: Move)
    requires PlayableAll(cfg, s, moves) && Playable(PlayAll(cfg, s, moves), m)
    ensures PlayableAll(cfg, s, moves + [m])
    ensures PlayAll(cfg, s, moves + [m]) == Play(cfg, PlayAll(cfg, s, moves), m)
    decreases |moves|
  {
    if moves == [] {
      OneMove(cfg, s, m);
      assert [] + [m] == [m];
    } else {
      MoreMoves(cfg, Play(cfg, s, moves[0]), moves[1..], m);
      assert (moves + [m])[1..] == moves[1..] + [m];
    }
  }

  /** Accepting the merge of a stale edit keeps every field the edit changed. */
  lemma MergeHolds(before: Payload, local: Payload, remote: Payload)
    requires Merging.Conflicting(before, local, remote) == {}
    ensures Holds(before, remote, Merged(before, local, remote))
  {
    forall name | ChangedIn(before, remote, name)
      ensures Field(Merged(before, local, remote), name) == Field(remote, name)
    {
      MergeIsThreeWay(before, local, remote, name);
    }
  }

  /** The only records that get a new revision are the allowed ones, filed under the given category. */
  ghost predicate OnlyAccepts(moves: seq<Move>, allowed: map<Key, Category>) {
    forall i :: 0 <= i < |moves| && moves[i].AcceptMove? ==>
      moves[i].edit.key in allowed && moves[i].edit.category == allowed[moves[i].edit.key]
  }

  /** What may be accepted for an operation: its own payload, its merge, or the tombstoned payload. */
  ghost predicate Admissible(s: Space, op: Operation, payload: Option<Payload>, deleted: bool, merged: bool) {
    if op.kind.Delete? then
      deleted && !merged && payload == (if op.key in s.records then s.records[op.key].payload else None)
    else
      && !deleted && payload.Some? && op.payload.Some?
      && (!merged ==> payload == op.payload)
      && (merged ==>
            && VersionKey(op.key, op.Base()) in s.versions
            && Holds(Fields(s.versions[VersionKey(op.key, op.Base())].record.payload), op.payload.value, payload.value))
  }

  lemma AcceptedRetrievable(cfg: Config, s: Space, ctx: Context, op: Operation, payload: Option<Payload>, deleted: bool,
                            now: int, merged: bool, resolved: Option<Id>)
    requires Newest(s.records, s.versions) && Filed(s.records, s.versions, s.nextSequence)
    requires Admissible(s, op, payload, deleted, merged)
    ensures var applied := AcceptOperation(cfg, s, ctx, op, payload, deleted, now, merged, resolved);
            Retrievable(applied.space.versions, applied.space.conflicts, ctx.clientId, op, applied.outcome)
  {
    hide AnyLive, Holds;
    var t := AcceptOperation(cfg, s, ctx, op, payload, deleted, now, merged, resolved).space;
    var r := NextRecord(cfg, s, ctx.clientId, EditOf(op), payload, deleted, now);
    assert VersionKey(op.key, r.revision) !in s.versions;
    assert t.versions[VersionKey(op.key, r.revision)] == Version(r, op.Base(), op.operationId);
    if op.kind.Delete? {
      assert KeepsPayload(t.versions, op.key, r);
    } else {
      assert HoldsEdit(t.versions, op, r, merged);
    }
  }

  /** The moves play from s to t, touch no record but the allowed ones, and leave the ledger alone. */
  ghost predicate Moves(cfg: Config, s: Space, moves: seq<Move>, allowed: map<Key, Category>, t: Space) {
    && PlayableAll(cfg, s, moves) && PlayAll(cfg, s, moves) == t
    && OnlyAccepts(moves, allowed) && EpochMove !in moves && t.operations == s.operations
  }

  lemma AcceptedIsMoves(cfg: Config, s: Space, ctx: Context, op: Operation, payload: Option<Payload>, deleted: bool,
                        now: int, merged: bool, resolved: Option<Id>)
    returns (moves: seq<Move>)
    requires deleted || payload.Some?
    ensures Moves(cfg, s, moves, map[op.key := op.category],
                  AcceptOperation(cfg, s, ctx, op, payload, deleted, now, merged, resolved).space)
  {
    hide AnyLive, CategoryAfter, NextRecord;
    moves := [AcceptMove(ctx.clientId, EditOf(op), payload, deleted, now)];
    OneMove(cfg, s, moves[0]);
  }

  lemma RefusedIsMoves(cfg: Config, s: Space, ctx: Context, op: Operation, now: int, reason: Reason,
                       fields: set<string>, newId: Id)
    returns (moves: seq<Move>)
    requires ctx.scope == s.scope && newId !in s.conflicts
    ensures var applied := AddConflict(cfg, s, ctx, op, now, reason, fields, newId);
            && Moves(cfg, s, moves, map[op.key := op.category], applied.space)
            && Retrievable(applied.space.versions, applied.space.conflicts, ctx.clientId, op, applied.outcome)
  {
    moves := [ConflictMove(ctx, op, now, reason, fields, newId)];
    OneMove(cfg, s, moves[0]);
  }

  lemma StaleIsMoves(cfg: Config, s: Space, ctx: Context, op: Operation, now: int, newId: Id)
    returns (moves: seq<Move>)
    requires Newest(s.records, s.versions) && Filed(s.records, s.versions, s.nextSequence)
    requires ctx.scope == s.scope && newId !in s.conflicts && op.WellFormed() && !op.kind.ResolveConflict?
    ensures var applied := ApplyStale(cfg, s, ctx, op, now, newId);
            && Moves(cfg, s, moves, map[op.key := op.category], applied.space)
            && Retrievable(applied.space.versions, applied.space.conflicts, ctx.clientId, op, applied.outcome)
  {
    hide Retrievable, Moves, AcceptOperation, AddConflict, Merged, Merging.Conflicting;
    var current, base := Current(s, op.key), VersionAt(s, op.key, op.Base());
    if PolicyOf(op.key.entityType).LastWriterWins? && op.kind.Upsert? {
      AcceptedRetrievable(cfg, s, ctx, op, op.payload, false, now, false, None);
      moves := AcceptedIsMoves(cfg, s, ctx, op, op.payload, false, now, false, None);
    } else if current.None? || base.None? || current.value.deleted || op.kind.Delete? {
      var reason := if current.Some? && current.value.deleted then StaleEditAfterDelete else StaleRevision;
      moves := RefusedIsMoves(cfg, s, ctx, op, now, reason, {}, newId);
    } else {
      var before, local, remote := Fields(base.value.record.payload), Fields(current.value.payload), Fields(op.payload);
      var fields := Merging.Conflicting(before, local, remote);
      if fields == {} {
        MergeHolds(before, local, remote);
        var payload := Some(Merged(before, local, remote));
        AcceptedRetrievable(cfg, s, ctx, op, payload, false, now, true, None);
        moves := AcceptedIsMoves(cfg, s, ctx, op, payload, false, now, true, None);
      } else {
        var reason := if PolicyOf(op.key.entityType).KeepCopy? then ConflictCopy else FieldConflict;
        moves := RefusedIsMoves(cfg, s, ctx, op, now, reason, fields, newId);
      }
    }
  }

  lemma ResolutionIsMoves(cfg: Config, s: Space, ctx: Context, op: Operation, now: int, newId: Id)
    returns (moves: seq<Move>)
    requires Newest(s.records, s.versions) && Filed(s.records, s.versions, s.nextSequence)
    requires ctx.scope == s.scope && newId !in s.conflicts && op.WellFormed() && op.kind.ResolveConflict?
    requires ApplyResolution(cfg, s, ctx, op, now, newId).Ok?
    ensures var applied := ApplyResolution(cfg, s, ctx, op, now, newId).value;
            && Moves(cfg, s, moves, map[op.key := op.category], applied.space)
            && Retrievable(applied.space.versions, applied.space.conflicts, ctx.clientId, op, applied.outcome)
  {
    var id, current := op.conflictId.value, Current(s, op.key);
    if !s.conflicts[id].status.Unresolved? || current.None? || op.baseRevision != Some(current.value.revision) {
      moves := RefusedIsMoves(cfg, s, ctx, op, now, StaleResolution, {}, newId);
    } else {
      AcceptedRetrievable(cfg, s, ctx, op, op.payload, false, now, false, Some(id));
      moves := AcceptedIsMoves(cfg, s, ctx, op, op.payload, false, now, false, Some(id));
      var accepted := AcceptOperation(cfg, s, ctx, op, op.payload, false, now, false, Some(id));
      var m := ResolveMove(id, accepted.outcome.record.revision, now);
      assert VersionKey(op.key, m.revision) in accepted.space.versions;
      MoreMoves(cfg, s, moves, m);
      moves := moves + [m];
    }
  }

  lemma EffectIsMoves(cfg: Config, s: Space, ctx: Context, op: Operation, now: int, newId: Id)
    returns (moves: seq<Move>)
    requires Newest(s.records, s.versions) && Filed(s.records, s.versions, s.nextSequence)
    requires ctx.scope == s.scope && newId !in s.conflicts && op.WellFormed()
    requires Effect(cfg, s, ctx, op, now, newId).Ok?
    ensures var applied := Effect(cfg, s, ctx, op, now, newId).value;
            && Moves(cfg, s, moves, map[op.key := op.category], applied.space)
            && Retrievable(applied.space.versions, applied.space.conflicts, ctx.clientId, op, applied.outcome)
  {
    hide Retrievable, Moves, AcceptOperation, ApplyStale, ApplyResolution;
    var current := Current(s, op.key);
    if op.kind.ResolveConflict? {
      moves := ResolutionIsMoves(cfg, s, ctx, op, now, newId);
    } else if IsStale(op, current) {
      moves := StaleIsMoves(cfg, s, ctx, op, now, newId);
    } else if op.kind.Delete? {
      var payload := if current.Some? then current.value.payload else None;
      AcceptedRetrievable(cfg, s, ctx, op, payload, true, now, false, None);
      moves := AcceptedIsMoves(cfg, s, ctx, op, payload, true, now, false, None);
    } else {
      AcceptedRetrievable(cfg, s, ctx, op, op.payload, false, now, false, None);
      moves := AcceptedIsMoves(cfg, s, ctx, op, op.payload, false, now, false, None);
    }
  }

  lemma {:induction false} TombstonesAreMoves(cfg: Config, s: Space, ctx: Context, rows: seq<Key>, stamps: seq<Stamp>,
                                              allowed: map<Key, Category>)
    returns (moves: seq<Move>)
    requires |stamps| == |rows|
    requires forall key :: key in rows ==> key in s.records && key in allowed && allowed[key] == s.records[key].category
    ensures Moves(cfg, s, moves, allowed, TombstoneAll(cfg, s, ctx, rows, stamps))
    decreases |rows|
  {
    hide AnyLive, CategoryAfter;
    if rows == [] {
      moves := [];
    } else {
      var r, stamp := s.records[rows[0]], stamps[0];
      var m := AcceptMove(ctx.clientId, Edit(stamp.operationId, rows[0], r.category, r.revision), r.payload, true,
                          stamp.now);
      var t := Tombstone(cfg, s, ctx, rows[0], stamp);
      assert t == Play(cfg, s, m);
      assert t.records == s.records[rows[0] := t.records[rows[0]]] && t.records[rows[0]].category == r.category;
      forall key | key in rows[1..]
        ensures key in t.records && key in allowed && allowed[key] == t.records[key].category {
        assert key in rows;
      }
      var rest := TombstonesAreMoves(cfg, t, ctx, rows[1..], stamps[1..], allowed);
      moves := [m] + rest;
      assert moves[1..] == rest;
    }
  }

  /** The records an event may give a new revision, with the category it files them under. */
  ghost function Touched(s: Space, e: Event): map<Key, Category> {
    match e
    case Push(_, op, _, _) => map[op.key := op.category]
    case Resolve(_, request, _, _) =>
      if request.conflictId !in s.conflicts then map[]
      else map[s.conflicts[request.conflictId].clash.key := s.conflicts[request.conflictId].clash.category]
    case FirstSync(_, _, _, _, rows, _) => map key | key in rows && key in s.records :: s.records[key].category
    case NewEpoch => map[]
    case MoveFloor(_) => map[]
  }

  lemma PushIsMoves(cfg: Config, s: Space, ctx: Context, op: Operation, now: int, newId: Id) returns (moves: seq<Move>)
    requires Newest(s.records, s.versions) && Filed(s.records, s.versions, s.nextSequence)
    requires ctx.scope == s.scope && newId !in s.conflicts
    ensures PlayableAll(cfg, s, moves) && PlayAll(cfg, s, moves) == ApplyOperation(cfg, s, ctx, op, now, newId).space
    ensures OnlyAccepts(moves, map[op.key := op.category]) && EpochMove !in moves
  {
    hide Effect, Retrievable;
    moves := [];
    if Refusal(cfg, op).None? && EpochAllows(s, ctx) && LedgerKey(ctx.clientId, op.operationId) !in s.operations
       && Effect(cfg, s, ctx, op, now, newId).Ok? {
      var applied := Effect(cfg, s, ctx, op, now, newId).value;
      moves := EffectIsMoves(cfg, s, ctx, op, now, newId);
      var m := RememberMove(ctx, op, applied.outcome, now);
      MoreMoves(cfg, s, moves, m);
      moves := moves + [m];
    }
  }

  lemma ResolveIsMoves(cfg: Config, s: Space, ctx: Context, request: ResolveRequest, now: int, operationId: Id)
      returns (moves: seq<Move>)
    ensures PlayableAll(cfg, s, moves)
    ensures PlayAll(cfg, s, moves) == ResolveForAccount(cfg, s, ctx, request, now, operationId).space
    ensures OnlyAccepts(moves, Touched(s, Resolve(ctx, request, now, operationId))) && EpochMove !in moves
  {
    hide AnyLive, CategoryAfter;
    var reply := ResolveForAccount(cfg, s, ctx, request, now, operationId);
    if reply.answer.Ok? && reply.answer.value.NewlyResolved? {
      var c := s.conflicts[request.conflictId].clash;
      var payload := ResolutionPayload(c, request.resolution);
      var edit := Edit(operationId, c.key, c.category, s.records[c.key].revision);
      var m0 := AcceptMove(c.currentOrigin.GetOr(c.incomingOrigin), edit, payload, false, now);
      var m1 := ResolveMove(request.conflictId, reply.answer.value.record.revision, now);
      OneMove(cfg, s, m0);
      assert VersionKey(c.key, m1.revision) in Play(cfg, s, m0).versions;
      MoreMoves(cfg, s, [m0], m1);
      moves := [m0] + [m1];
    } else {
      moves := [];
    }
  }

  /** Every event plays primitive moves, and accepts revisions only of the records it may touch. */
  lemma EventIsMoves(cfg: Config, s: Space, e: Event) returns (moves: seq<Move>)
    requires Newest(s.records, s.versions) && Filed(s.records, s.versions, s.nextSequence) && Possible(s, e)
    ensures PlayableAll(cfg, s, moves) && PlayAll(cfg, s, moves) == Step(cfg, s, e)
    ensures OnlyAccepts(moves, Touched(s, e)) && (EpochMove in moves ==> e.NewEpoch?)
  {
    hide ApplyOperation, ResolveForAccount, TombstoneAll;
    match e
    case Push(ctx, op, now, newId) => moves := PushIsMoves(cfg, s, ctx, op, now, newId);
    case Resolve(ctx, request, now, operationId) => moves := ResolveIsMoves(cfg, s, ctx, request, now, operationId);
    case FirstSync(ctx, plan, request, now, rows, stamps) =>
      if ExecuteFirstSync(cfg, s, ctx, plan, request, now, rows, stamps).space == s {
        moves := [];
      } else {
        moves := TombstonesAreMoves(cfg, s, ctx, rows, stamps, Touched(s, e));
      }
    case NewEpoch => moves := [EpochMove]; OneMove(cfg, s, EpochMove);
    case MoveFloor(sequence) => moves := [FloorMove(sequence)]; OneMove(cfg, s, FloorMove(sequence));
  }

  // ---------------------------------------------------------------- every run keeps the invariant

  lemma StepKeeps(cfg: Config, s: Space, e: Event)
    requires Inv(s) && Possible(s, e)
    ensures Inv(Step(cfg, s, e)) && Grows(s, Step(cfg, s, e))
  {
    hide Step, Grows;
    var moves := EventIsMoves(cfg, s, e);
    MovesKeep(cfg, s, moves);
  }

  lemma {:induction false} RunKeeps(cfg: Config, s: Space, events: seq<Event>)
    requires Inv(s) && PossibleRun(cfg, s, events)
    ensures Inv(Run(cfg, s, events)) && Grows(s, Run(cfg, s, events))
    decreases |events|
  {
    hide Step, Inv;
    if events != [] {
      StepKeeps(cfg, s, events[0]);
      RunKeeps(cfg, Step(cfg, s, events[0]), events[1..]);
      GrowsTransitive(s, Step(cfg, s, events[0]), Run(cfg, s, events));
    }
  }

  /** The two halves of a run, one after the other, are the run. */
  lemma {:induction false} RunSplits(cfg: Config, s: Space, events: seq<Event>, more: seq<Event>)
    requires PossibleRun(cfg, s, events + more)
    ensures PossibleRun(cfg, s, events) && PossibleRun(cfg, Run(cfg, s, events), more)
    ensures Run(cfg, s, events + more) == Run(cfg, Run(cfg, s, events), more)
    decreases |events|
  {
    hide Step;
    if events == [] {
      assert events + more == more;
    } else {
      assert (events + more)[1..] == events[1..] + more;
      RunSplits(cfg, Step(cfg, s, events[0]), events[1..], more);
    }
  }

  lemma NewSpaceInv(scope: Scope, restoreEpoch: nat)
    ensures Inv(NewSpace(scope, restoreEpoch))
  {
  }

  /** A state that a new space can reach. */
  ghost predicate Reachable(cfg: Config, s: Space) {
    exists scope: Scope, restoreEpoch: nat, events: seq<Event> ::
      && PossibleRun(cfg, NewSpace(scope, restoreEpoch), events)
      && Run(cfg, NewSpace(scope, restoreEpoch), events) == s
  }

  /** The invariant holds in every reachable state. */
  lemma ReachableInv(cfg: Config, s: Space)
    requires Reachable(cfg, s)
    ensures Inv(s)
  {
    hide Inv, Grows, Step, Possible;
    var scope: Scope, restoreEpoch: nat, events: seq<Event> :|
      && PossibleRun(cfg, NewSpace(scope, restoreEpoch), events)
      && Run(cfg, NewSpace(scope, restoreEpoch), events) == s;
    NewSpaceInv(scope, restoreEpoch);
    RunKeeps(cfg, NewSpace(scope, restoreEpoch), events);
  }
}
