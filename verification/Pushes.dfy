/**
  What a pushed operation is answered and what it leaves behind, spelled out in terms of the request
  and the space alone.
 */
module Pushes {
  import opened Merging
  import opened Replication
  import opened Schema
  import opened Wrappers

  /**
    Every answer and when it is given. The schema comes first, then the epoch, then the ledger; a
    resolution needs a conflict of this space and this entity. Whatever is not committed changes nothing.
   */
  lemma AnswersExactly(cfg: Config, s: Space, ctx: Context, op: Operation, now: int, newId: Id)
    ensures var reply := ApplyOperation(cfg, s, ctx, op, now, newId);
            var k := LedgerKey(ctx.clientId, op.operationId);
            var wellFormed := (op.kind == Delete <==> op.payload == None)
              && (op.kind == ResolveConflict ==> op.conflictId != None);
            var fits := op.kind == Delete || CategoryOf(op.key.entityType) == op.category;
            var valid := op.kind == Delete || (op.payload.Some? && cfg.valid(op.key.entityType, op.payload.value));
            var admitted := wellFormed && fits && valid;
            var epoch := ctx.restoreEpoch == None || ctx.restoreEpoch == Some(s.restoreEpoch);
            var unseen := admitted && epoch && k !in s.operations;
            var found :=
              op.kind == ResolveConflict ==>
                exists id :: id in s.conflicts && op.conflictId == Some(id)
                             && s.conflicts[id].clash.scope.accountId == ctx.scope.accountId
                             && s.conflicts[id].clash.scope.spaceId == ctx.scope.spaceId
                             && s.conflicts[id].clash.key.entityType == op.key.entityType
                             && s.conflicts[id].clash.key.entityId == op.key.entityId;
            && (reply.answer == Ok(Rejected(InvalidOperation)) <==> !wellFormed)
            && (reply.answer == Ok(Rejected(CategoryMismatch)) <==> wellFormed && !fits)
            && (reply.answer == Ok(Rejected(InvalidEntity)) <==> wellFormed && fits && !valid)
            && (reply.answer == Err(RestoreEpochChanged) <==> admitted && !epoch)
            && (reply.answer == Err(OperationReused) <==>
                admitted && epoch && k in s.operations && s.operations[k].request != op)
            && (admitted && epoch && k in s.operations && s.operations[k].request == op ==>
                  reply.answer == Ok(Duplicate(s.operations[k].outcome)))
            && (reply.answer == Err(ResourceNotFound) <==> unseen && !found)
            && (reply.answer.Ok? && reply.answer.value.Committed? <==> unseen && found)
            && (!(reply.answer.Ok? && reply.answer.value.Committed?) ==> reply.space == s)
  {
    hide Accept, NextRecord, NewClash, AddConflict, ApplyStale, AcceptOperation;
  }

  /** The operation was committed. */
  predicate Commits(cfg: Config, s: Space, ctx: Context, op: Operation, now: int, newId: Id) {
    var answer := ApplyOperation(cfg, s, ctx, op, now, newId).answer;
    answer.Ok? && answer.value.Committed?
  }

  /** A committed operation is remembered with its outcome. */
  lemma CommittedIsEffect(cfg: Config, s: Space, ctx: Context, op: Operation, now: int, newId: Id)
    requires Commits(cfg, s, ctx, op, now, newId)
    ensures op.WellFormed() && Effect(cfg, s, ctx, op, now, newId).Ok?
    ensures var applied := Effect(cfg, s, ctx, op, now, newId).value;
            ApplyOperation(cfg, s, ctx, op, now, newId) ==
            Reply(applied.space.(operations := applied.space.operations[LedgerKey(ctx.clientId, op.operationId) :=
                                                 LedgerEntry(op, applied.outcome, now)]),
                  Ok(Committed(applied.outcome)))
  {
    hide Effect;
  }

  /**
    Which committed operations become revisions: a delete, an upsert or a resolution on the current
    revision, the resolution only of an open conflict; an upsert of a last-writer-wins type on any; and a
    stale upsert of another type if the entity is live, its base is known, and no field was changed on
    both sides to different values.
   */
  lemma AcceptedExactly(cfg: Config, s: Space, ctx: Context, op: Operation, now: int, newId: Id)
    requires Commits(cfg, s, ctx, op, now, newId)
    ensures var key, base := op.key, if op.baseRevision.Some? then op.baseRevision.value else 0;
            var revision := if key in s.records then s.records[key].revision else 0;
            ApplyOperation(cfg, s, ctx, op, now, newId).answer.value.outcome.Accepted? <==>
            match op.kind
            case Delete => base == revision
            case ResolveConflict =>
              && key in s.records && op.baseRevision == Some(revision)
              && exists id :: id in s.conflicts && op.conflictId == Some(id) && s.conflicts[id].status == Unresolved
            case Upsert =>
              || base == revision || key.entityType == Preference || key.entityType == WeatherLocation
              || (&& key in s.records && !s.records[key].deleted && VersionKey(key, base) in s.versions
                  && forall name ::
                       var before := Field(Fields(s.versions[VersionKey(key, base)].record.payload), name);
                       var local, incoming := Field(Fields(s.records[key].payload), name),
                         Field(Fields(op.payload), name);
                       local == before || incoming == before || local == incoming)
  {
    CommittedIsEffect(cfg, s, ctx, op, now, newId);
    hide Accept, NextRecord, NewClash, ApplyOperation, Merged;
    if op.kind.Upsert? && op.key in s.records && VersionKey(op.key, op.Base()) in s.versions {
      NoneConflicting(Fields(s.versions[VersionKey(op.key, op.Base())].record.payload),
                      Fields(s.records[op.key].payload),
                      Fields(op.payload));
    }
  }

  lemma NoneConflicting(base: Payload, current: Payload, incoming: Payload)
    ensures Merging.Conflicting(base, current, incoming) == {} <==>
            forall name ::
              Field(current, name) == Field(base, name) || Field(incoming, name) == Field(base, name)
              || Field(current, name) == Field(incoming, name)
  {
    forall name {
      MergeIsThreeWay(base, current, incoming, name);
    }
    hide Field;
  }

  /** The whole state an accept leaves. */
  lemma RevisionExactly(cfg: Config, s: Space, clientId: Id, edit: Edit, payload: Option<Payload>, deleted: bool,
                        now: int)
    ensures var key, t := edit.key, Accept(cfg, s, clientId, edit, payload, deleted, now);
            var revision := (if key in s.records then s.records[key].revision else 0) + 1;
            var r := Record(key, edit.category, revision, now, clientId, deleted, payload, s.nextSequence + 1,
                            if deleted then Some(now + cfg.tombstoneDays * 86400000) else None);
            var restored := !deleted && key in s.records && s.records[key].deleted;
            && NextRecord(cfg, s, clientId, edit, payload, deleted, now) == r
            && edit.category in t.categories
            && (t.categories[edit.category].present <==>
                exists k :: k in t.records && t.records[k].category == edit.category && !t.records[k].deleted)
            && t == s.(nextSequence := s.nextSequence + 1, records := s.records[key := r],
                       versions := s.versions[VersionKey(key, revision) := Version(r, edit.baseRevision,
                             edit.operationId)],
                       changes := s.changes + [Change(s.nextSequence + 1, edit.category, key, revision,
                                                      Stored(deleted, restored, r), clientId, now)],
                       categories := s.categories[edit.category := CategoryState(
                                       t.categories[edit.category].present,
                                       if edit.category in s.categories then s.categories[edit.category].clearGeneration
                                          else 0,
                                       now, s.nextSequence + 1)])
  {
    var t := Accept(cfg, s, clientId, edit, payload, deleted, now);
    if !deleted {
      assert edit.key in t.records && t.records[edit.key].category == edit.category;
    }
  }

  /**
    What an accepted operation leaves: the next revision of its entity under the next number, as the current
    record, as a version and as the last entry of the log, the summary of its category, and its entry in the
    ledger; a conflict it resolves is resolved at that revision. Nothing else moves.
   */
  lemma AcceptedLeaves(cfg: Config, s: Space, ctx: Context, op: Operation, now: int, newId: Id)
    requires Commits(cfg, s, ctx, op, now, newId)
             && ApplyOperation(cfg, s, ctx, op, now, newId).answer.value.outcome.Accepted?
    ensures var t := ApplyOperation(cfg, s, ctx, op, now, newId).space;
            var outcome := ApplyOperation(cfg, s, ctx, op, now, newId).answer.value.outcome;
            var key, base := op.key, if op.baseRevision.Some? then op.baseRevision.value else 0;
            var former := if key in s.records then s.records[key].revision else 0;
            var r := Record(key, op.category, former + 1, now, ctx.clientId, op.kind == Delete, outcome.record.payload,
                            s.nextSequence + 1, if op.kind == Delete then Some(now + cfg.tombstoneDays * 86400000)
                              else None);
            var merged := op.kind == Upsert && base != former && key.entityType != Preference
              && key.entityType != WeatherLocation;
            var restored := op.kind != Delete && key in s.records && s.records[key].deleted;
            var resolved := if op.kind == ResolveConflict then op.conflictId else None;
            && outcome == Accepted(r, s.nextSequence + 1, merged, resolved)
            && op.category in t.categories
            && (t.categories[op.category].present <==>
                exists k :: k in t.records && t.records[k].category == op.category && !t.records[k].deleted)
            && (resolved.Some? ==> resolved.value in s.conflicts)
            && t == s.(nextSequence := s.nextSequence + 1, records := s.records[key := r],
                       versions := s.versions[VersionKey(key, former + 1) := Version(r, base, op.operationId)],
                       changes := s.changes + [Change(s.nextSequence + 1, op.category, key, former + 1,
                                                      Stored(op.kind == Delete, restored, r), ctx.clientId, now)],
                       operations := s.operations[LedgerKey(ctx.clientId, op.operationId) := LedgerEntry(op, outcome,
                             now)],
                       conflicts := if resolved.None? then s.conflicts
                                    else s.conflicts[resolved.value := Conflict(s.conflicts[resolved.value].clash,
                                          Resolved(former + 1, now))],
                       categories := s.categories[op.category := CategoryState(
                                       t.categories[op.category].present,
                                       if op.category in s.categories then s.categories[op.category].clearGeneration
                                          else 0,
                                       now, s.nextSequence + 1)])
  {
    CommittedIsEffect(cfg, s, ctx, op, now, newId);
    var payload := Effect(cfg, s, ctx, op, now, newId).value.outcome.record.payload;
    RevisionExactly(cfg, s, ctx.clientId, EditOf(op), payload, op.kind.Delete?, now);
    AcceptedIsAccept(cfg, s, ctx, op, now, newId);
    hide Accept, NextRecord, Effect, ApplyOperation;
  }

  lemma AcceptedIsAccept(cfg: Config, s: Space, ctx: Context, op: Operation, now: int, newId: Id)
    requires op.WellFormed() && Effect(cfg, s, ctx, op, now, newId).Ok?
    requires Effect(cfg, s, ctx, op, now, newId).value.outcome.Accepted?
    ensures var applied := Effect(cfg, s, ctx, op, now, newId).value;
            var base := if op.baseRevision.Some? then op.baseRevision.value else 0;
            var former := if op.key in s.records then s.records[op.key].revision else 0;
            var merged :=
              op.kind == Upsert && base != former && op.key.entityType != Preference
                && op.key.entityType != WeatherLocation;
            var payload := applied.outcome.record.payload;
            var r := NextRecord(cfg, s, ctx.clientId, EditOf(op), payload, op.kind == Delete, now);
            var t := Accept(cfg, s, ctx.clientId, EditOf(op), payload, op.kind == Delete, now);
            var resolved := if op.kind == ResolveConflict then op.conflictId else None;
            && applied.outcome == Accepted(r, r.sequence, merged, resolved)
               && EditOf(op) == Edit(op.operationId, op.key, op.category, base)
            && (resolved.Some? ==> resolved.value in s.conflicts)
            && applied.space ==
               if resolved.None? then t
               else t.(conflicts := t.conflicts[resolved.value := Conflict(t.conflicts[resolved.value].clash,
                     Resolved(r.revision, now))])
  {
    hide Merged, Merging.Conflicting, AnyLive, CategoryAfter;
  }

  /**
    The payload of the revision: a tombstone keeps the last one, a stale edit that was merged changes exactly
    the fields it changed from its base, and anything else is taken as it was sent.
   */
  lemma PayloadExactly(cfg: Config, s: Space, ctx: Context, op: Operation, now: int, newId: Id)
    requires Commits(cfg, s, ctx, op, now, newId)
             && ApplyOperation(cfg, s, ctx, op, now, newId).answer.value.outcome.Accepted?
    ensures var outcome := ApplyOperation(cfg, s, ctx, op, now, newId).answer.value.outcome;
            var key, base := op.key, if op.baseRevision.Some? then op.baseRevision.value else 0;
            && (op.kind == Delete ==>
                outcome.record.payload == if key in s.records then s.records[key].payload else None)
            && (op.kind != Delete && !outcome.merged ==> outcome.record.payload == op.payload)
            && (outcome.merged ==>
                  && key in s.records && VersionKey(key, base) in s.versions && outcome.record.payload.Some?
                  && forall name ::
                       var before := Field(Fields(s.versions[VersionKey(key, base)].record.payload), name);
                       var incoming := Field(Fields(op.payload), name);
                       Field(outcome.record.payload.value, name) ==
                       if incoming == before then Field(Fields(s.records[key].payload), name) else incoming)
  {
    CommittedIsEffect(cfg, s, ctx, op, now, newId);
    hide Accept, ApplyOperation, NewClash, Merged, Merging.Conflicting;
    if op.key in s.records && VersionKey(op.key, op.Base()) in s.versions {
      MergedExactly(Fields(s.versions[VersionKey(op.key, op.Base())].record.payload), Fields(s.records[op.key].payload),
                    Fields(op.payload));
    }
  }

  lemma MergedExactly(base: Payload, current: Payload, incoming: Payload)
    ensures Merging.Conflicting(base, current, incoming) == {} ==>
              forall name ::
                Field(Merged(base, current, incoming), name) ==
                if Field(incoming, name) == Field(base, name) then Field(current, name) else Field(incoming, name)
  {
    hide Field, Merged;
    forall name {
      MergeIsThreeWay(base, current, incoming, name);
    }
  }

  /**
    What a committed operation that was not accepted leaves: itself, in full, as an open conflict under the
    next number, with the state it met and the reason, and its entry in the ledger. No record moves.
   */
  lemma ConflictLeaves(cfg: Config, s: Space, ctx: Context, op: Operation, now: int, newId: Id)
    requires Commits(cfg, s, ctx, op, now, newId)
             && ApplyOperation(cfg, s, ctx, op, now, newId).answer.value.outcome.Conflicted?
    ensures var t := ApplyOperation(cfg, s, ctx, op, now, newId).space;
            var outcome := ApplyOperation(cfg, s, ctx, op, now, newId).answer.value.outcome;
            var key, base := op.key, if op.baseRevision.Some? then op.baseRevision.value else 0;
            var there := key in s.records;
            var comparable := op.kind == Upsert && there && !s.records[key].deleted
              && VersionKey(key, base) in s.versions;
            var reason :=
              if op.kind == ResolveConflict then StaleResolution
              else if there && s.records[key].deleted then StaleEditAfterDelete
              else if !comparable then StaleRevision
              else if key.entityType == Note || key.entityType == AiSession
                || key.entityType == Command then ConflictCopy
              else FieldConflict;
            && newId in t.conflicts
            && var fields := t.conflicts[newId].clash.changedFields;
               var revision := if there then s.records[key].revision else 0;
               var c := Clash(newId, ctx.scope, key, op.category, base, revision,
                              if there then s.records[key].payload else None, op.payload,
                              if there then Some(s.records[key].origin) else None, ctx.clientId, fields, reason, now,
                              now + cfg.conflictDays * 86400000, s.nextSequence + 1);
               && outcome == Conflicted(newId, revision, s.nextSequence + 1)
               && (!comparable ==> fields == {})
               && (comparable ==>
                   forall name ::
                     var before := Field(Fields(s.versions[VersionKey(key, base)].record.payload), name);
                     var local, incoming := Field(Fields(s.records[key].payload), name),
                       Field(Fields(op.payload), name);
                     name in fields <==> local != before && incoming != before && local != incoming)
               && t == s.(nextSequence := s.nextSequence + 1,
                          conflicts := s.conflicts[newId := Conflict(c, Unresolved)],
                          changes := s.changes + [Change(s.nextSequence + 1, op.category, key, revision, Conflicting(c),
                                                         ctx.clientId, now)],
                          operations := s.operations[LedgerKey(ctx.clientId, op.operationId) := LedgerEntry(op, outcome,
                                now)])
  {
    CommittedIsEffect(cfg, s, ctx, op, now, newId);
    ConflictIsClash(cfg, s, ctx, op, now, newId);
    hide Accept, Effect, ApplyOperation, Merged, Merging.Conflicting, AddConflict, ApplyStale;
    var base := if op.baseRevision.Some? then op.baseRevision.value else 0;
    if op.key in s.records && VersionKey(op.key, base) in s.versions {
      var before := Fields(s.versions[VersionKey(op.key, base)].record.payload);
      forall name {
        MergeIsThreeWay(before, Fields(s.records[op.key].payload), Fields(op.payload), name);
      }
    }
    hide Field, Fields;
  }

  lemma ConflictIsClash(cfg: Config, s: Space, ctx: Context, op: Operation, now: int, newId: Id)
    requires op.WellFormed() && Effect(cfg, s, ctx, op, now, newId).Ok?
    requires Effect(cfg, s, ctx, op, now, newId).value.outcome.Conflicted?
    ensures var applied := Effect(cfg, s, ctx, op, now, newId).value;
            var key, base := op.key, if op.baseRevision.Some? then op.baseRevision.value else 0;
            var there := key in s.records;
            var comparable := op.kind == Upsert && there && !s.records[key].deleted
              && VersionKey(key, base) in s.versions;
            var reason :=
              if op.kind == ResolveConflict then StaleResolution
              else if there && s.records[key].deleted then StaleEditAfterDelete
              else if !comparable then StaleRevision
              else if key.entityType == Note || key.entityType == AiSession
                || key.entityType == Command then ConflictCopy
              else FieldConflict;
            var fields :=
              if comparable then
                Merging.Conflicting(Fields(s.versions[VersionKey(key, base)].record.payload),
                                    Fields(s.records[key].payload),
                                    Fields(op.payload))
              else {};
            var revision := if there then s.records[key].revision else 0;
            var c := Clash(newId, ctx.scope, key, op.category, base, revision,
                           if there then s.records[key].payload else None, op.payload,
                           if there then Some(s.records[key].origin) else None, ctx.clientId, fields, reason, now,
                           now + cfg.conflictDays * 86400000, s.nextSequence + 1);
            && applied.outcome == Conflicted(newId, revision, s.nextSequence + 1)
            && applied.space ==
               s.(nextSequence := s.nextSequence + 1, conflicts := s.conflicts[newId := Conflict(c, Unresolved)],
                  changes := s.changes + [Change(s.nextSequence + 1, op.category, key, revision, Conflicting(c),
                                                 ctx.clientId, now)])
  {
    hide Accept, NextRecord, Merged, Merging.Conflicting;
  }
}
