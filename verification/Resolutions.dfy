/**
  Conflicts that the account owner settles: what is answered, and what a settled conflict leaves,
  spelled out in terms of the request and the space alone.
 */
module Resolutions {
  import opened Merging
  import opened Replication
  import opened Runs
  import opened Schema
  import opened Wrappers
  import Pushes

  /**
    Every answer and when it is given: the epoch first, then the conflict, which must be one of this space;
    one that is resolved is answered with the version it was resolved to; of an open one the record must
    be at the revision the owner saw, and the chosen payload must fit the schema. Only a newly resolved
    conflict changes anything.
   */
  lemma AnswersExactly(cfg: Config, s: Space, ctx: Context, request: ResolveRequest, now: int, operationId: Id)
    ensures var reply, id := ResolveForAccount(cfg, s, ctx, request, now, operationId), request.conflictId;
            var epoch := ctx.restoreEpoch == None || ctx.restoreEpoch == Some(s.restoreEpoch);
            var there := id in s.conflicts && s.conflicts[id].clash.scope.accountId == ctx.scope.accountId
                         && s.conflicts[id].clash.scope.spaceId == ctx.scope.spaceId;
            && (reply.answer == Err(RestoreEpochChanged) <==> !epoch)
            && (reply.answer == Err(ResourceNotFound) <==> epoch && !there)
            && (epoch && there ==>
                  var c, status := s.conflicts[id].clash, s.conflicts[id].status;
                  var current := c.key in s.records && s.records[c.key].revision == request.baseRevision;
                  var chosen :=
                    match request.resolution
                    case TakeCurrent => c.currentPayload
                    case TakeIncoming => c.incomingPayload
                    case Manual(payload) => payload;
                  var fits := CategoryOf(c.key.entityType) == c.category && chosen.Some?
                    && cfg.valid(c.key.entityType, chosen.value);
                  && (reply.answer.Ok? && reply.answer.value.AlreadyResolved? <==> status.Resolved?)
                  && (status.Resolved? ==>
                        reply.answer.value.version ==
                        if VersionKey(c.key, status.revision) in s.versions then
                           Some(s.versions[VersionKey(c.key, status.revision)])
                        else None)
                  && (reply.answer == Err(StaleResolutionRequest) <==> status.Unresolved? && !current)
                  && (reply.answer == Err(InvalidPayload) <==> status.Unresolved? && current && !fits)
                  && (reply.answer.Ok? && reply.answer.value.NewlyResolved? <==> status.Unresolved? && current && fits))
            && (!(reply.answer.Ok? && reply.answer.value.NewlyResolved?) ==> reply.space == s)
  {
    hide Accept, NextRecord;
  }

  /**
    What a settled conflict leaves: a live record of its entity at the next revision, with the payload that was
    current, the one that came in or the one the owner gave, on behalf of the client whose edit was current; the
    version, the log entry and the summary that go with it; and the conflict resolved at that revision.
   */
  lemma ResolutionLeaves(cfg: Config, s: Space, ctx: Context, request: ResolveRequest, now: int, operationId: Id)
    requires ResolveForAccount(cfg, s, ctx, request, now, operationId).answer.Ok?
             && ResolveForAccount(cfg, s, ctx, request, now, operationId).answer.value.NewlyResolved?
    ensures var reply, id := ResolveForAccount(cfg, s, ctx, request, now, operationId), request.conflictId;
            && id in s.conflicts && s.conflicts[id].clash.key in s.records
            && var c, t := s.conflicts[id].clash, reply.space;
               var chosen :=
                 match request.resolution
                 case TakeCurrent => c.currentPayload
                 case TakeIncoming => c.incomingPayload
                 case Manual(payload) => payload;
               var client := if c.currentOrigin.Some? then c.currentOrigin.value else c.incomingOrigin;
               var former := s.records[c.key];
               var r := Record(c.key, c.category, former.revision + 1, now, client, false, chosen, s.nextSequence + 1,
                               None);
               && reply.answer == Ok(NewlyResolved(r, s.nextSequence + 1)) && chosen.Some?
               && t == s.(nextSequence := s.nextSequence + 1, records := s.records[c.key := r],
                          versions := s.versions[VersionKey(c.key, r.revision) := Version(r, former.revision,
                                operationId)],
                          changes := s.changes + [Change(s.nextSequence + 1, c.category, c.key, r.revision,
                                                         Stored(false, former.deleted, r), client, now)],
                          conflicts := s.conflicts[id := Conflict(c, Resolved(r.revision, now))],
                          categories := s.categories[c.category := CategoryState(
                                          true, if c.category in s.categories then
                                            s.categories[c.category].clearGeneration else 0,
                                          now, s.nextSequence + 1)])
  {
    var c := s.conflicts[request.conflictId].clash;
    var client := if c.currentOrigin.Some? then c.currentOrigin.value else c.incomingOrigin;
    var edit := Edit(operationId, c.key, c.category, s.records[c.key].revision);
    var t := Accept(cfg, s, client, edit, ResolutionPayload(c, request.resolution), false, now);
    Pushes.RevisionExactly(cfg, s, client, edit, ResolutionPayload(c, request.resolution), false, now);
    assert c.key in t.records && t.records[c.key].category == c.category && !t.records[c.key].deleted;
    hide Accept, NextRecord;
  }

  /**
    Asking again, in any later state of the epoch and for any resolution, is answered with the version the
    conflict was resolved to, and changes nothing.
   */
  lemma ResolvingAgain(cfg: Config, s: Space, ctx: Context, request: ResolveRequest, now: int, operationId: Id,
                       later: Space, ctx': Context, request': ResolveRequest, now': int, operationId': Id)
    requires ResolveForAccount(cfg, s, ctx, request, now, operationId).answer.Ok?
             && ResolveForAccount(cfg, s, ctx, request, now, operationId).answer.value.NewlyResolved?
    requires Grows(ResolveForAccount(cfg, s, ctx, request, now, operationId).space, later)
    requires request'.conflictId == request.conflictId && ctx'.scope == ctx.scope
    requires ctx'.restoreEpoch == None || ctx'.restoreEpoch == Some(later.restoreEpoch)
    ensures var r := ResolveForAccount(cfg, s, ctx, request, now, operationId).answer.value.record;
            ResolveForAccount(cfg, later, ctx', request', now', operationId') ==
            Reply(later, Ok(AlreadyResolved(Some(Version(r, r.revision - 1, operationId)))))
  {
    ResolutionLeaves(cfg, s, ctx, request, now, operationId);
    AnswersExactly(cfg, s, ctx, request, now, operationId);
    AnswersExactly(cfg, later, ctx', request', now', operationId');
    ResolvedStays(ResolveForAccount(cfg, s, ctx, request, now, operationId).space, later, request.conflictId);
    hide *;
  }

  lemma ResolvedStays(s: Space, later: Space, id: Id)
    requires Grows(s, later) && id in s.conflicts && s.conflicts[id].status.Resolved?
    ensures id in later.conflicts && later.conflicts[id] == s.conflicts[id]
    ensures var v := VersionKey(s.conflicts[id].clash.key, s.conflicts[id].status.revision);
            v in s.versions ==> v in later.versions && later.versions[v] == s.versions[v]
  {
  }
}
