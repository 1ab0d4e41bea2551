/**
  A client that follows the log of some categories, and exactly when what it holds is what the
  server would select for it.
 */
module FilteredReplicas {
  import opened Merging
  import opened Replicas
  import opened Replication
  import opened Runs
  import opened Schema
  import opened Summaries
  import opened Wrappers

  /** What a client held when the epoch began, overlaid with the filtered log, is the selected records. */
  ghost predicate Tracks(base: Records, s: Space, categories: set<Category>) {
    Replay(base, Slice(s.changes, categories, 0, s.nextSequence)) == Selected(s.records, categories)
  }

  ghost predicate LogWithin(s: Space) {
    forall i :: 0 <= i < |s.changes| ==> 0 < s.changes[i].sequence <= s.nextSequence
  }

  /** The event takes a record out of what the filter selects. */
  predicate TakesOut(cfg: Config, s: Space, e: Event, categories: set<Category>) {
    var refiled := Refiles(cfg, s, e);
    refiled.Some? && LeavesFilter(s.records, refiled.value.0, refiled.value.1, categories)
  }

  // ---------------------------------------------------------------- one more log entry

  lemma {:induction false} SliceBound(changes: seq<Change>, categories: set<Category>, hi: int, more: int)
    requires hi <= more && forall i :: 0 <= i < |changes| ==> 0 < changes[i].sequence <= hi
    ensures Slice(changes, categories, 0, more) == Slice(changes, categories, 0, hi)
    decreases |changes|
  {
    hide Selects;
    if changes != [] {
      SliceBound(changes[..|changes| - 1], categories, hi, more);
    }
  }

  /** One more entry of the log, as the client of a filter replays it. */
  lemma OneMoreEntry(base: Records, s: Space, t: Space, categories: set<Category>)
    requires LogWithin(s) && |t.changes| == |s.changes| + 1 && t.changes[..|s.changes|] == s.changes
    requires t.nextSequence == s.nextSequence + 1 == t.changes[|s.changes|].sequence
    ensures LogWithin(t)
    ensures Replay(base, Slice(t.changes, categories, 0, t.nextSequence)) ==
            ApplyFiltered(Replay(base, Slice(s.changes, categories, 0, s.nextSequence)), t.changes[|s.changes|],
                          categories)
  {
    LogGrows(s, t);
    SliceGrows(s, t, categories);
    hide *;
    ReplayFiltered(base, Slice(s.changes, categories, 0, s.nextSequence), t.changes[|s.changes|], categories);
  }

  lemma LogGrows(s: Space, t: Space)
    requires LogWithin(s) && |t.changes| == |s.changes| + 1 && t.changes[..|s.changes|] == s.changes
    requires t.nextSequence == s.nextSequence + 1 == t.changes[|s.changes|].sequence
    ensures LogWithin(t)
  {
    forall i | 0 <= i < |s.changes| ensures t.changes[i] == s.changes[i] {
      assert t.changes[..|s.changes|][i] == t.changes[i];
    }
  }

  lemma SliceGrows(s: Space, t: Space, categories: set<Category>)
    requires LogWithin(s) && |t.changes| == |s.changes| + 1 && t.changes[..|s.changes|] == s.changes
    requires t.nextSequence == s.nextSequence + 1 == t.changes[|s.changes|].sequence
    ensures var c, part := t.changes[|s.changes|], Slice(s.changes, categories, 0, s.nextSequence);
            Slice(t.changes, categories, 0, t.nextSequence) == if Selects(categories, c.category) then part + [c]
              else part
  {
    hide Slice, Selects;
    SliceBound(s.changes, categories, s.nextSequence, t.nextSequence);
    SliceNext(t.changes, categories, 0, t.nextSequence);
  }

  lemma ReplayFiltered(base: Records, part: seq<Change>, c: Change, categories: set<Category>)
    ensures Replay(base, if Selects(categories, c.category) then part + [c] else part) ==
            ApplyFiltered(Replay(base, part), c, categories)
  {
    hide Replay, Apply, Selects;
    ReplayAppend(base, part, c);
  }

  lemma AcceptTracksExactly(cfg: Config, base: Records, s: Space, clientId: Id, edit: Edit, payload: Option<Payload>,
                            deleted: bool, now: int, categories: set<Category>)
    requires LogWithin(s) && Tracks(base, s, categories)
    ensures var t := Accept(cfg, s, clientId, edit, payload, deleted, now);
            && LogWithin(t)
               && (Tracks(base, t, categories) <==> !LeavesFilter(s.records, edit.key, edit.category, categories))
  {
    var t := Accept(cfg, s, clientId, edit, payload, deleted, now);
    AcceptLogs(cfg, s, clientId, edit, payload, deleted, now);
    FilteredReplicaFollows(cfg, s, clientId, edit, payload, deleted, now, categories);
    hide Accept, Slice, Replay, ApplyFiltered, Selected, LogWithin;
    OneMoreEntry(base, s, t, categories);
  }

  lemma AcceptLogs(cfg: Config, s: Space, clientId: Id, edit: Edit, payload: Option<Payload>, deleted: bool, now: int)
    ensures var t := Accept(cfg, s, clientId, edit, payload, deleted, now);
            && |t.changes| == |s.changes| + 1 && t.changes[..|s.changes|] == s.changes
            && t.nextSequence == s.nextSequence + 1 == t.changes[|s.changes|].sequence
  {
    hide CategoryAfter;
  }

  lemma ConflictTracks(base: Records, s: Space, t: Space, categories: set<Category>)
    requires LogWithin(s) && Tracks(base, s, categories) && LogsConflict(s, t) && t.records == s.records
    ensures LogWithin(t) && Tracks(base, t, categories)
  {
    hide Slice, Replay, Selected, LogWithin;
    OneMoreEntry(base, s, t, categories);
  }

  /** A client's replica is a matter of records, log and counter only. */
  lemma SameLogTracks(base: Records, s: Space, t: Space, categories: set<Category>)
    requires t.records == s.records && t.changes == s.changes && t.nextSequence == s.nextSequence
    ensures Tracks(base, t, categories) <==> Tracks(base, s, categories)
    ensures LogWithin(t) <==> LogWithin(s)
  {
  }

  // ---------------------------------------------------------------- events

  lemma PushTracksExactly(cfg: Config, base: Records, s: Space, ctx: Context, op: Operation, now: int, newId: Id,
                          categories: set<Category>)
    requires LogWithin(s) && Tracks(base, s, categories)
    ensures Tracks(base, ApplyOperation(cfg, s, ctx, op, now, newId).space, categories) <==>
            !TakesOut(cfg, s, Push(ctx, op, now, newId), categories)
  {
    hide Accept, Accepting, Effect, Tracks, LogWithin, LeavesFilter, LogsConflict;
    if Refusal(cfg, op).None? {
      if Effect(cfg, s, ctx, op, now, newId).Err? {
        RefusedIsNotAccepting(cfg, s, ctx, op, now, newId);
      } else {
        var applied, t := Effect(cfg, s, ctx, op, now, newId).value.space,
          ApplyOperation(cfg, s, ctx, op, now, newId).space;
        var payload, deleted := EffectIsAccept(cfg, s, ctx, op, now, newId);
        if CarriedOut(cfg, s, ctx, op) {
          AcceptTracksExactly(cfg, base, s, ctx.clientId, EditOf(op), payload, deleted, now, categories);
          SameLogTracks(base, Accept(cfg, s, ctx.clientId, EditOf(op), payload, deleted, now), t, categories);
        } else if t != s {
          ConflictTracks(base, s, applied, categories);
          SameLogTracks(base, applied, t, categories);
        }
      }
    }
  }

  lemma ResolutionTracksExactly(cfg: Config, base: Records, s: Space, ctx: Context, request: ResolveRequest, now: int,
                                operationId: Id, categories: set<Category>)
    requires LogWithin(s) && Tracks(base, s, categories)
    ensures Tracks(base, ResolveForAccount(cfg, s, ctx, request, now, operationId).space, categories) <==>
            !TakesOut(cfg, s, Resolve(ctx, request, now, operationId), categories)
  {
    hide Accept, NextRecord, Tracks, LogWithin, LeavesFilter;
    if Settles(cfg, s, ctx, request) {
      var c, t := s.conflicts[request.conflictId].clash,
        ResolveForAccount(cfg, s, ctx, request, now, operationId).space;
      var client, edit := c.currentOrigin.GetOr(c.incomingOrigin),
        Edit(operationId, c.key, c.category, s.records[c.key].revision);
      var payload := ResolutionPayload(c, request.resolution);
      AcceptTracksExactly(cfg, base, s, client, edit, payload, false, now, categories);
      SameLogTracks(base, Accept(cfg, s, client, edit, payload, false, now), t, categories);
    }
  }

  lemma {:induction false} TombstonesTrack(cfg: Config, base: Records, s: Space, ctx: Context, rows: seq<Key>,
                                           stamps: seq<Stamp>, categories: set<Category>)
    requires LogWithin(s) && Tracks(base, s, categories)
    requires |stamps| == |rows| && forall key :: key in rows ==> key in s.records
    ensures Tracks(base, TombstoneAll(cfg, s, ctx, rows, stamps), categories)
    decreases |rows|
  {
    hide Tracks, LogWithin, CategoryAfter, NextRecord, Selects;
    if rows != [] {
      var r := s.records[rows[0]];
      AcceptTracksExactly(cfg, base, s, ctx.clientId, Edit(stamps[0].operationId, rows[0], r.category, r.revision),
                          r.payload, true, stamps[0].now, categories);
      TombstonesTrack(cfg, base, Tombstone(cfg, s, ctx, rows[0], stamps[0]), ctx, rows[1..], stamps[1..], categories);
    }
  }

  lemma FirstSyncTracks(cfg: Config, base: Records, s: Space, ctx: Context, plan: Plan, request: PlanRequest, now: int,
                        rows: seq<Key>, stamps: seq<Stamp>, categories: set<Category>)
    requires LogWithin(s) && Tracks(base, s, categories)
    requires |stamps| == |rows| && forall key :: key in rows ==> key in s.records
    ensures Tracks(base, ExecuteFirstSync(cfg, s, ctx, plan, request, now, rows, stamps).space, categories)
  {
    hide Tracks, LogWithin, TombstoneAll, Impact, PlanMatches;
    TombstonesTrack(cfg, base, s, ctx, rows, stamps, categories);
  }

  /** With a new epoch a client starts over, from what is selected for it at that point. */
  ghost function BaseAfter(base: Records, s: Space, e: Event, categories: set<Category>): Records {
    if e.NewEpoch? then Selected(s.records, categories) else base
  }

  /** The replica of a filter follows an event exactly when the event takes nothing out of the filter. */
  lemma EventTracksExactly(cfg: Config, base: Records, s: Space, e: Event, categories: set<Category>)
    requires Inv(s) && Possible(s, e) && Tracks(base, s, categories)
    ensures Tracks(BaseAfter(base, s, e, categories), Step(cfg, s, e), categories) <==> !TakesOut(cfg, s, e, categories)
  {
    hide Inv, Tracks, LogWithin, TakesOut, ApplyOperation, ResolveForAccount, ExecuteFirstSync;
    LogOfInv(s);
    match e
    case Push(ctx, op, now, newId) => PushTracksExactly(cfg, base, s, ctx, op, now, newId, categories);
    case Resolve(ctx, request, now, operationId) =>
      ResolutionTracksExactly(cfg, base, s, ctx, request, now, operationId, categories);
    case FirstSync(ctx, plan, request, now, rows, stamps) =>
      FirstSyncTracks(cfg, base, s, ctx, plan, request, now, rows, stamps, categories);
      NothingTakenOut(cfg, s, e, categories);
    case NewEpoch =>
      EmptyLogTracks(AdvanceEpoch(s), categories);
      NothingTakenOut(cfg, s, e, categories);
    case MoveFloor(sequence) =>
      SameLogTracks(base, s, SetFloor(s, sequence), categories);
      NothingTakenOut(cfg, s, e, categories);
  }

  lemma LogOfInv(s: Space)
    requires Inv(s)
    ensures LogWithin(s)
  {
    LogFacts(s);
  }

  lemma EmptyLogTracks(s: Space, categories: set<Category>)
    requires s.changes == []
    ensures Tracks(Selected(s.records, categories), s, categories)
  {
  }

  lemma NothingTakenOut(cfg: Config, s: Space, e: Event, categories: set<Category>)
    requires !e.Push? && !e.Resolve?
    ensures !TakesOut(cfg, s, e, categories)
  {
  }

  // ---------------------------------------------------------------- runs

  /** The replica is right in this state and after each event of the run. */
  ghost predicate AlwaysTracks(cfg: Config, base: Records, s: Space, events: seq<Event>, categories: set<Category>)
    requires PossibleRun(cfg, s, events)
    decreases |events|
  {
    && Tracks(base, s, categories)
    && (events == []
        || AlwaysTracks(cfg, BaseAfter(base, s, events[0], categories), Step(cfg, s, events[0]), events[1..],
                        categories))
  }

  ghost predicate NeverTakesOut(cfg: Config, s: Space, events: seq<Event>, categories: set<Category>)
    requires PossibleRun(cfg, s, events)
    decreases |events|
  {
    events == []
      || (!TakesOut(cfg, s, events[0], categories)
          && NeverTakesOut(cfg, Step(cfg, s, events[0]), events[1..], categories))
  }

  /** Along any run the replica of a filter stays right exactly as long as no event takes a record out of it. */
  lemma {:induction false} RunTracksExactly(cfg: Config, base: Records, s: Space, events: seq<Event>,
                                            categories: set<Category>)
    requires Inv(s) && Tracks(base, s, categories) && PossibleRun(cfg, s, events)
    ensures AlwaysTracks(cfg, base, s, events, categories) <==> NeverTakesOut(cfg, s, events, categories)
    decreases |events|
  {
    hide Inv, Tracks, Step, Possible, TakesOut;
    if events != [] {
      EventTracksExactly(cfg, base, s, events[0], categories);
      StepKeeps(cfg, s, events[0]);
      var base', t := BaseAfter(base, s, events[0], categories), Step(cfg, s, events[0]);
      if Tracks(base', t, categories) {
        RunTracksExactly(cfg, base', t, events[1..], categories);
      }
    }
  }
}
