/**
  A delete names its category itself, and the schema check does not look at it. This is exactly when
  the summaries of the categories still agree with the records after such a delete.
 */
module Summaries {
  import opened Histories
  import opened Merging
  import opened Replication
  import opened Runs
  import opened Schema
  import opened Wrappers

  ghost predicate DistinctNumbers(records: Records) {
    forall k, l :: k in records && l in records && records[k].sequence == records[l].sequence ==> k == l
  }

  /** In every reachable state the records have different sequence numbers. */
  lemma ReachableNumbersAreDistinct(cfg: Config, s: Space)
    requires Reachable(cfg, s)
    ensures DistinctNumbers(s.records)
  {
    hide Reachable, Inv, Present, NumberOf, Numbered, Newest, Filed;
    ReachableInv(cfg, s);
    InvParts(s);
    var owners := SequencesAreConserved(cfg, s);
    forall k, l | k in s.records && l in s.records && s.records[k].sequence == s.records[l].sequence ensures k == l {
      NumberOfRecord(s, k);
      NumberOfRecord(s, l);
      OneOwner(s, owners, OfVersion(VersionKey(k, s.records[k].revision)),
               OfVersion(VersionKey(l, s.records[l].revision)));
    }
  }

  lemma OneOwner(s: Space, owners: seq<Owner>, o: Owner, p: Owner)
    requires Numbered(s.versions, s.conflicts, s.nextSequence, owners)
    requires Present(s.versions, s.conflicts, o) && Present(s.versions, s.conflicts, p)
    requires NumberOf(s.versions, s.conflicts, o) == NumberOf(s.versions, s.conflicts, p)
    ensures o == p
  {
    hide Present, NumberOf;
  }

  lemma NumberOfRecord(s: Space, key: Key)
    requires Newest(s.records, s.versions) && key in s.records
    ensures var owner := OfVersion(VersionKey(key, s.records[key].revision));
            Present(s.versions, s.conflicts, owner)
              && NumberOf(s.versions, s.conflicts, owner) == s.records[key].sequence
  {
  }

  /** Its category would be summarised the same without this record. */
  predicate Dispensable(records: Records, summaries: Summaries, key: Key)
    requires key in records
  {
    var c := records[key].category;
    && c in summaries && records[key].sequence < summaries[c].lastSequence
    && (summaries[c].present ==> exists k | k in records :: k != key && records[k].category == c && !records[k].deleted)
  }

  lemma OwnSummary(records: Records, summaries: Summaries, r: Record, summary: CategoryState)
    requires forall key :: key in records ==> records[key].sequence < r.sequence
    requires summary.present == AnyLive(records[r.key := r], r.category) && summary.lastSequence == r.sequence
    ensures SummaryRight(records[r.key := r], summaries[r.category := summary], r.category)
  {
    hide AnyLive;
    assert records[r.key := r][r.key] == r;
  }

  lemma OtherSummary(records: Records, summaries: Summaries, r: Record, c: Category)
    requires c != r.category && (r.key in records ==> records[r.key].category != c)
    ensures SummaryRight(records[r.key := r], summaries, c) <==> SummaryRight(records, summaries, c)
  {
    var records' := records[r.key := r];
    assert SameCategory(records, records', c) && SameCategory(records', records, c);
    if SummaryRight(records, summaries, c) {
      SameSummary(records, records', summaries, c);
    }
    if SummaryRight(records', summaries, c) {
      SameSummary(records', records, summaries, c);
    }
  }

  predicate InCategory(records: Records, key: Key, c: Category) {
    key in records && records[key].category == c
  }

  ghost predicate SameCategory(records: Records, records': Records, c: Category) {
    && (forall k :: InCategory(records, k, c) ==> InCategory(records', k, c) && records'[k] == records[k])
    && (forall k :: InCategory(records', k, c) ==> InCategory(records, k, c))
  }

  /** A summary depends on the records of its category only. */
  lemma SameSummary(records: Records, records': Records, summaries: Summaries, c: Category)
    requires SameCategory(records, records', c)
    requires SummaryRight(records, summaries, c)
    ensures SummaryRight(records', summaries, c)
  {
    SameLive(records, records', c);
    hide AnyLive;
    if c in summaries {
      var k :| k in records && records[k].category == c && records[k].sequence == summaries[c].lastSequence;
      assert InCategory(records, k, c);
      forall l | l in records' && records'[l].category == c ensures records'[l].sequence <= summaries[c].lastSequence {
        assert InCategory(records', l, c);
      }
    } else {
      forall l | l in records' ensures records'[l].category != c {
        assert InCategory(records', l, c) ==> InCategory(records, l, c);
      }
    }
  }

  lemma SameLive(records: Records, records': Records, c: Category)
    requires SameCategory(records, records', c)
    ensures AnyLive(records, c) <==> AnyLive(records', c)
  {
    if AnyLive(records, c) {
      var k :| k in records && records[k].category == c && !records[k].deleted;
      assert InCategory(records, k, c);
    }
    if AnyLive(records', c) {
      var k :| k in records' && records'[k].category == c && !records'[k].deleted;
      assert InCategory(records', k, c);
    }
  }

  /** The category a record moves out of. */
  lemma LeftSummary(records: Records, summaries: Summaries, r: Record)
    requires r.key in records && records[r.key].category != r.category
    requires SummaryRight(records, summaries, records[r.key].category) && DistinctNumbers(records)
    ensures SummaryRight(records[r.key := r], summaries, records[r.key].category) <==>
              Dispensable(records, summaries, r.key)
  {
    var c, records' := records[r.key].category, records[r.key := r];
    assert c in summaries;
    forall k ensures k in records' && records'[k].category == c <==>
             k in records && k != r.key && records[k].category == c
             ensures k in records' && records'[k].category == c ==> records'[k] == records[k] {}
    var last :| last in records && records[last].category == c && records[last].sequence == summaries[c].lastSequence;
    if last != r.key {
      assert records'[last] == records[last];
    }
    LeftLive(records, r);
    hide AnyLive;
  }

  lemma LeftLive(records: Records, r: Record)
    requires r.key in records && records[r.key].category != r.category
    ensures var c := records[r.key].category;
            && (AnyLive(records[r.key := r], c) <==>
                exists k :: k in records && k != r.key && records[k].category == c && !records[k].deleted)
            && (AnyLive(records[r.key := r], c) ==> AnyLive(records, c))
  {
    var c, records' := records[r.key].category, records[r.key := r];
    forall k ensures k in records' && records'[k].category == c && !records'[k].deleted <==>
             k in records && k != r.key && records[k].category == c && !records[k].deleted {}
  }

  lemma SummariesAfterExactly(records: Records, summaries: Summaries, r: Record, summary: CategoryState)
    requires SummariesRight(records, summaries) && DistinctNumbers(records)
    requires forall key :: key in records ==> records[key].sequence < r.sequence
    requires summary.present == AnyLive(records[r.key := r], r.category) && summary.lastSequence == r.sequence
    ensures SummariesRight(records[r.key := r], summaries[r.category := summary]) <==>
            (r.key in records && records[r.key].category != r.category ==> Dispensable(records, summaries, r.key))
  {
    var records', summaries' := records[r.key := r], summaries[r.category := summary];
    forall c ensures SummaryRight(records', summaries', c) <==>
                     (r.key in records && c == records[r.key].category != r.category ==>
                      Dispensable(records, summaries, r.key))
    {
      assert SummaryRight(records, summaries, c);
      if c == r.category {
        OwnSummary(records, summaries, r, summary);
      } else {
        assert SummaryRight(records', summaries', c) == SummaryRight(records', summaries, c);
        if r.key in records && records[r.key].category == c {
          LeftSummary(records, summaries, r);
        } else {
          OtherSummary(records, summaries, r, c);
        }
      }
    }
    hide SummaryRight, Dispensable;
    if r.key in records && SummariesRight(records', summaries') {
      assert SummaryRight(records', summaries', records[r.key].category);
    }
  }

  // ---------------------------------------------------------------- which events revise a record

  /** The operation becomes a revision, once it is neither refused nor replayed. */
  predicate Accepting(s: Space, ctx: Context, op: Operation) {
    var current := Current(s, op.key);
    match op.kind
    case ResolveConflict =>
      && op.conflictId.Some? && op.conflictId.value in s.conflicts
      && s.conflicts[op.conflictId.value].clash.scope == ctx.scope
         && s.conflicts[op.conflictId.value].clash.key == op.key
      && s.conflicts[op.conflictId.value].status.Unresolved?
      && current.Some? && op.baseRevision == Some(current.value.revision)
    case Delete => !IsStale(op, current)
    case Upsert =>
      || !IsStale(op, current) || PolicyOf(op.key.entityType).LastWriterWins?
      || (&& current.Some? && VersionAt(s, op.key, op.Base()).Some? && !current.value.deleted
          && Merging.Conflicting(Fields(VersionAt(s, op.key, op.Base()).value.record.payload),
                                 Fields(current.value.payload), Fields(op.payload)) == {})
  }

  predicate CarriedOut(cfg: Config, s: Space, ctx: Context, op: Operation) {
    && Refusal(cfg, op).None? && EpochAllows(s, ctx) && LedgerKey(ctx.clientId, op.operationId) !in s.operations
    && Accepting(s, ctx, op)
  }

  predicate Settles(cfg: Config, s: Space, ctx: Context, request: ResolveRequest) {
    && EpochAllows(s, ctx) && request.conflictId in s.conflicts
    && s.conflicts[request.conflictId].clash.scope == ctx.scope && s.conflicts[request.conflictId].status.Unresolved?
    && var c := s.conflicts[request.conflictId].clash;
       var payload := ResolutionPayload(c, request.resolution);
       && c.key in s.records && s.records[c.key].revision == request.baseRevision
       && CategoryOf(c.key.entityType) == c.category && payload.Some? && cfg.valid(c.key.entityType, payload.value)
  }

  /**
    The entity an event revises, and the category it files the revision under. A first sync, which
    may revise many, files each under the category its record has.
   */
  function Refiles(cfg: Config, s: Space, e: Event): Option<(Key, Category)> {
    match e
    case Push(ctx, op, _, _) => if CarriedOut(cfg, s, ctx, op) then Some((op.key, op.category)) else None
    case Resolve(ctx, request, _, _) =>
      if Settles(cfg, s, ctx, request) then
         Some((s.conflicts[request.conflictId].clash.key, s.conflicts[request.conflictId].clash.category))
      else None
    case _ => None
  }

  /** The event takes a record out of a category that cannot do without it. */
  predicate Misfiles(cfg: Config, s: Space, e: Event) {
    var refiled := Refiles(cfg, s, e);
    && refiled.Some? && refiled.value.0 in s.records && s.records[refiled.value.0].category != refiled.value.1
    && !Dispensable(s.records, s.categories, refiled.value.0)
  }

  ghost predicate AllOld(s: Space) {
    forall key :: key in s.records ==> s.records[key].sequence <= s.nextSequence
  }

  /** What one accepted revision does to the summaries. */
  lemma AcceptSummarisesExactly(cfg: Config, s: Space, clientId: Id, edit: Edit, payload: Option<Payload>,
                                deleted: bool, now: int)
    requires AllOld(s) && DistinctNumbers(s.records) && SummariesRight(s.records, s.categories)
    ensures var t := Accept(cfg, s, clientId, edit, payload, deleted, now);
            && (SummariesRight(t.records, t.categories) <==>
                (edit.key in s.records && s.records[edit.key].category != edit.category ==>
                 Dispensable(s.records, s.categories, edit.key)))
            && AllOld(t) && DistinctNumbers(t.records)
  {
    hide SummariesRight, Dispensable;
    var t := Accept(cfg, s, clientId, edit, payload, deleted, now);
    var r := NextRecord(cfg, s, clientId, edit, payload, deleted, now);
    assert t.records == s.records[edit.key := r];
    assert !r.deleted ==> AnyLive(t.records, r.category) by {
      assert t.records[edit.key] == r;
    }
    hide AnyLive;
    SummariesAfterExactly(s.records, s.categories, r, CategoryAfter(s, t.records, r));
  }

  /** The log has grown by one conflict, and by nothing else. */
  ghost predicate LogsConflict(s: Space, t: Space) {
    && |t.changes| == |s.changes| + 1 && t.changes[..|s.changes|] == s.changes
    && t.nextSequence == s.nextSequence + 1 == t.changes[|s.changes|].sequence
    && t.changes[|s.changes|].body.Conflicting?
  }

  /** An operation that becomes a revision is one accept; any other is a conflict and leaves the records alone. */
  lemma EffectIsAccept(cfg: Config, s: Space, ctx: Context, op: Operation, now: int, newId: Id)
      returns (payload: Option<Payload>, deleted: bool)
    requires op.WellFormed() && Effect(cfg, s, ctx, op, now, newId).Ok?
    ensures var t := Effect(cfg, s, ctx, op, now, newId).value.space;
            if Accepting(s, ctx, op) then
              var u := Accept(cfg, s, ctx.clientId, EditOf(op), payload, deleted, now);
              && t.records == u.records && t.categories == u.categories
              && t.changes == u.changes && t.nextSequence == u.nextSequence
            else t.records == s.records && t.categories == s.categories && LogsConflict(s, t)
  {
    hide Accept, NextRecord, AnyLive, CategoryAfter, Merged, Merging.Conflicting;
    var current := Current(s, op.key);
    assert forall c: Change :: (s.changes + [c])[..|s.changes|] == s.changes;
    payload, deleted := op.payload, false;
    if op.kind.Delete? {
      payload, deleted := if current.Some? then current.value.payload else None, true;
    } else if op.kind.Upsert? && IsStale(op, current) && !PolicyOf(op.key.entityType).LastWriterWins?
      && Accepting(s, ctx, op) {
      var before := Fields(VersionAt(s, op.key, op.Base()).value.record.payload);
      payload := Some(Merged(before, Fields(current.value.payload), Fields(op.payload)));
    }
  }

  lemma RefusedIsNotAccepting(cfg: Config, s: Space, ctx: Context, op: Operation, now: int, newId: Id)
    requires op.WellFormed() && Effect(cfg, s, ctx, op, now, newId).Err?
    ensures !Accepting(s, ctx, op)
  {
    hide Accept, NextRecord, NewClash, ApplyStale;
  }

  lemma PushSummarisesExactly(cfg: Config, s: Space, ctx: Context, op: Operation, now: int, newId: Id)
    requires AllOld(s) && DistinctNumbers(s.records) && SummariesRight(s.records, s.categories)
    ensures var t := ApplyOperation(cfg, s, ctx, op, now, newId).space;
            SummariesRight(t.records, t.categories) <==> !Misfiles(cfg, s, Push(ctx, op, now, newId))
  {
    hide Accept, Accepting, Effect, SummariesRight, Dispensable, DistinctNumbers, AllOld;
    if Refusal(cfg, op).None? {
      if Effect(cfg, s, ctx, op, now, newId).Err? {
        RefusedIsNotAccepting(cfg, s, ctx, op, now, newId);
      } else {
        var payload, deleted := EffectIsAccept(cfg, s, ctx, op, now, newId);
        AcceptSummarisesExactly(cfg, s, ctx.clientId, EditOf(op), payload, deleted, now);
      }
    }
  }

  lemma ResolutionSummarisesExactly(cfg: Config, s: Space, ctx: Context, request: ResolveRequest, now: int,
                                    operationId: Id)
    requires AllOld(s) && DistinctNumbers(s.records) && SummariesRight(s.records, s.categories)
    ensures var t := ResolveForAccount(cfg, s, ctx, request, now, operationId).space;
            SummariesRight(t.records, t.categories) <==> !Misfiles(cfg, s, Resolve(ctx, request, now, operationId))
  {
    hide Accept, NextRecord, SummariesRight, Dispensable, DistinctNumbers, AllOld;
    if Settles(cfg, s, ctx, request) {
      var c := s.conflicts[request.conflictId].clash;
      AcceptSummarisesExactly(cfg, s, c.currentOrigin.GetOr(c.incomingOrigin),
                              Edit(operationId, c.key, c.category, s.records[c.key].revision),
                              ResolutionPayload(c, request.resolution), false, now);
    }
  }

  lemma {:induction false} TombstonesSummarise(cfg: Config, s: Space, ctx: Context, rows: seq<Key>, stamps: seq<Stamp>)
    requires AllOld(s) && DistinctNumbers(s.records) && SummariesRight(s.records, s.categories)
    requires |stamps| == |rows| && forall key :: key in rows ==> key in s.records
    ensures var t := TombstoneAll(cfg, s, ctx, rows, stamps); SummariesRight(t.records, t.categories)
    decreases |rows|
  {
    hide SummariesRight, Dispensable, DistinctNumbers, AllOld, CategoryAfter, NextRecord;
    if rows != [] {
      var r := s.records[rows[0]];
      AcceptSummarisesExactly(cfg, s, ctx.clientId, Edit(stamps[0].operationId, rows[0], r.category, r.revision),
                              r.payload, true, stamps[0].now);
      TombstonesSummarise(cfg, Tombstone(cfg, s, ctx, rows[0], stamps[0]), ctx, rows[1..], stamps[1..]);
    }
  }

  /**
    Exactly which events leave every summary right: all but those that file a revision under another
    category than the record's, when that record's category cannot do without it.
   */
  lemma EventSummarisesExactly(cfg: Config, s: Space, e: Event)
    requires Inv(s) && Possible(s, e) && DistinctNumbers(s.records) && SummariesRight(s.records, s.categories)
    ensures SummariesRight(Step(cfg, s, e).records, Step(cfg, s, e).categories) <==> !Misfiles(cfg, s, e)
  {
    hide Inv, SummariesRight, DistinctNumbers, AllOld, Misfiles, ApplyOperation, ResolveForAccount, ExecuteFirstSync;
    RecordsOfInv(s);
    match e
    case Push(ctx, op, now, newId) => PushSummarisesExactly(cfg, s, ctx, op, now, newId);
    case Resolve(ctx, request, now, operationId) => ResolutionSummarisesExactly(cfg, s, ctx, request, now, operationId);
    case FirstSync(ctx, plan, request, now, rows, stamps) =>
      FirstSyncSummarises(cfg, s, ctx, plan, request, now, rows, stamps);
      NothingRefiled(cfg, s, e);
    case _ =>
      NothingRefiled(cfg, s, e);
  }

  lemma RecordsOfInv(s: Space)
    requires Inv(s)
    ensures AllOld(s)
  {
    InvParts(s);
    RecordsAreOld(s);
  }

  lemma FirstSyncSummarises(cfg: Config, s: Space, ctx: Context, plan: Plan, request: PlanRequest, now: int,
                            rows: seq<Key>, stamps: seq<Stamp>)
    requires AllOld(s) && DistinctNumbers(s.records) && SummariesRight(s.records, s.categories)
    requires |stamps| == |rows| && forall key :: key in rows ==> key in s.records
    ensures var t := ExecuteFirstSync(cfg, s, ctx, plan, request, now, rows, stamps).space;
            SummariesRight(t.records, t.categories)
  {
    hide SummariesRight, DistinctNumbers, AllOld, TombstoneAll, Impact, PlanMatches;
    TombstonesSummarise(cfg, s, ctx, rows, stamps);
  }

  lemma NothingRefiled(cfg: Config, s: Space, e: Event)
    requires !e.Push? && !e.Resolve?
    ensures !Misfiles(cfg, s, e)
  {
  }

  // ---------------------------------------------------------------- runs

  /** Every summary is right in this state and after each event of the run. */
  ghost predicate AlwaysRight(cfg: Config, s: Space, events: seq<Event>)
    requires PossibleRun(cfg, s, events)
    decreases |events|
  {
    SummariesRight(s.records, s.categories) && (events == [] || AlwaysRight(cfg, Step(cfg, s, events[0]), events[1..]))
  }

  ghost predicate NeverMisfiles(cfg: Config, s: Space, events: seq<Event>)
    requires PossibleRun(cfg, s, events)
    decreases |events|
  {
    events == [] || (!Misfiles(cfg, s, events[0]) && NeverMisfiles(cfg, Step(cfg, s, events[0]), events[1..]))
  }

  lemma ReachableStep(cfg: Config, s: Space, e: Event)
    requires Reachable(cfg, s) && Possible(s, e)
    ensures Reachable(cfg, Step(cfg, s, e))
  {
    hide Step, Possible;
    var scope: Scope, restoreEpoch: nat, events: seq<Event> :|
      PossibleRun(cfg, NewSpace(scope, restoreEpoch), events) && Run(cfg, NewSpace(scope, restoreEpoch), events) == s;
    OneStep(cfg, s, e);
    RunJoins(cfg, NewSpace(scope, restoreEpoch), events, [e]);
    assert PossibleRun(cfg, NewSpace(scope, restoreEpoch), events + [e]);
  }

  lemma OneStep(cfg: Config, s: Space, e: Event)
    requires Possible(s, e)
    ensures PossibleRun(cfg, s, [e]) && Run(cfg, s, [e]) == Step(cfg, s, e)
  {
    hide Step, Possible;
    assert [e][1..] == [];
  }

  lemma {:induction false} RunJoins(cfg: Config, s: Space, events: seq<Event>, more: seq<Event>)
    requires PossibleRun(cfg, s, events) && PossibleRun(cfg, Run(cfg, s, events), more)
    ensures PossibleRun(cfg, s, events + more) && Run(cfg, s, events + more) == Run(cfg, Run(cfg, s, events), more)
    decreases |events|
  {
    hide Step, Possible;
    if events == [] {
      assert events + more == more;
    } else {
      RunJoins(cfg, Step(cfg, s, events[0]), events[1..], more);
      assert (events + more)[1..] == events[1..] + more;
    }
  }

  /**
    In a run from any reachable state whose summaries are right they stay right exactly as long as no
    event misfiles.
   */
  lemma {:induction false} RunSummarisesExactly(cfg: Config, s: Space, events: seq<Event>)
    requires Reachable(cfg, s) && SummariesRight(s.records, s.categories) && PossibleRun(cfg, s, events)
    ensures AlwaysRight(cfg, s, events) <==> NeverMisfiles(cfg, s, events)
    decreases |events|
  {
    hide Reachable, SummariesRight, Step, Possible, Misfiles, Inv;
    if events != [] {
      ReachableInv(cfg, s);
      ReachableNumbersAreDistinct(cfg, s);
      ReachableStep(cfg, s, events[0]);
      EventSummarisesExactly(cfg, s, events[0]);
      var t := Step(cfg, s, events[0]);
      if SummariesRight(t.records, t.categories) {
        RunSummarisesExactly(cfg, t, events[1..]);
      }
    }
  }

  // ---------------------------------------------------------------- short runs

  function Put(operationId: Id, key: Key, category: Category, base: nat, payload: Payload): Operation {
    Operation(operationId, key, category, Some(base), Upsert, Some(payload), None)
  }

  function Remove(operationId: Id, key: Key, category: Category, base: nat): Operation {
    Operation(operationId, key, category, Some(base), Delete, None, None)
  }

  /** The space after one push. */
  function Pushed(cfg: Config, s: Space, ctx: Context, op: Operation): Space {
    ApplyOperation(cfg, s, ctx, op, 0, "").space
  }

  /** A to-do that is created, and then deleted under the name of another category. */
  lemma MisfiledDelete(cfg: Config, scope: Scope, payload: Payload)
    requires cfg.valid(Todo, payload)
    ensures var key, ctx := Key(Todo, "t"), Context(scope, "c", None);
            var create := Put("1", key, Todos, 0, payload);
            var delete := Remove("2", key, Notes, 1);
            var s := Pushed(cfg, NewSpace(scope, 1), ctx, create);
            var t := Pushed(cfg, s, ctx, delete);
            && SummariesRight(s.records, s.categories) && !SummariesRight(t.records, t.categories)
            && t.categories[Todos].present && !AnyLive(t.records, Todos)
  {
    var key, ctx := Key(Todo, "t"), Context(scope, "c", None);
    var create := Put("1", key, Todos, 0, payload);
    var delete := Remove("2", key, Notes, 1);
    Created(cfg, scope, ctx, create, payload);
    var s := Pushed(cfg, NewSpace(scope, 1), ctx, create);
    Misfiled(cfg, s, ctx, delete);
  }

  lemma Created(cfg: Config, scope: Scope, ctx: Context, op: Operation, payload: Payload)
    requires cfg.valid(Todo, payload) && ctx == Context(scope, "c", None)
    requires op == Operation("1", Key(Todo, "t"), Todos, Some(0), Upsert, Some(payload), None)
    ensures var s := Pushed(cfg, NewSpace(scope, 1), ctx, op);
            && s.records == map[op.key := Record(op.key, Todos, 1, 0, "c", false, Some(payload), 1, None)]
            && s.operations.Keys == {LedgerKey("c", "1")} && s.categories == map[Todos := CategoryState(true, 0, 0, 1)]
            && SummariesRight(s.records, s.categories)
  {
    hide SummariesRight, NewClash;
    var s := Pushed(cfg, NewSpace(scope, 1), ctx, op);
    assert s.records[op.key].category == Todos && AnyLive(s.records, Todos);
    OneRecord(s.records, s.categories, op.key);
  }

  lemma OneRecord(records: Records, summaries: Summaries, key: Key)
    requires records.Keys == {key} && !records[key].deleted
    requires summaries.Keys == {records[key].category} && summaries[records[key].category].present
    requires summaries[records[key].category].lastSequence == records[key].sequence
    ensures SummariesRight(records, summaries)
  {
    assert key in records && records[key].category in summaries;
  }

  lemma Misfiled(cfg: Config, s: Space, ctx: Context, op: Operation)
    requires s.records.Keys == {op.key} && s.records[op.key].category == Todos && s.records[op.key].revision == 1
    requires Todos in s.categories && s.categories[Todos].present
    requires op == Remove("2", op.key, Notes, 1) && ctx.restoreEpoch.None?
    requires LedgerKey(ctx.clientId, "2") !in s.operations
    ensures var t := Pushed(cfg, s, ctx, op);
            !SummariesRight(t.records, t.categories) && t.categories[Todos].present && !AnyLive(t.records, Todos)
  {
    hide NewClash;
    var t := Pushed(cfg, s, ctx, op);
    assert t.records.Keys == {op.key} && t.records[op.key].category == Notes;
    assert !SummaryRight(t.records, t.categories, Todos);
  }

  /** One carried-out push that is not stale is an accept, remembered in the ledger. */
  lemma PushedIsAccept(cfg: Config, s: Space, ctx: Context, op: Operation)
      returns (payload: Option<Payload>, outcome: Outcome)
    requires CarriedOut(cfg, s, ctx, op) && !op.kind.ResolveConflict? && !IsStale(op, Current(s, op.key))
    ensures Pushed(cfg, s, ctx, op) ==
            Remember(Accept(cfg, s, ctx.clientId, EditOf(op), payload, op.kind.Delete?, 0), ctx, op, outcome, 0)
  {
    hide Accept, ApplyStale, ApplyResolution, IsStale;
    var applied := Effect(cfg, s, ctx, op, 0, "").value;
    outcome := applied.outcome;
    payload := if op.kind.Upsert? then op.payload else if op.key in s.records then s.records[op.key].payload else None;
  }

  /** One carried-out push that is not stale, spelled out. */
  lemma PushedRevision(cfg: Config, s: Space, ctx: Context, op: Operation)
    requires CarriedOut(cfg, s, ctx, op) && !op.kind.ResolveConflict? && !IsStale(op, Current(s, op.key))
             && ctx.restoreEpoch.None?
    ensures var t := Pushed(cfg, s, ctx, op);
            && op.key in t.records && op.category in t.categories
            && t.records == s.records[op.key := t.records[op.key]]
               && t.categories == s.categories[op.category := t.categories[op.category]]
            && t.nextSequence == s.nextSequence + 1 == t.records[op.key].sequence
            && t.nextSequence == t.categories[op.category].lastSequence
            && t.records[op.key].key == op.key && t.records[op.key].category == op.category
            && t.records[op.key].revision == RevisionOf(Current(s, op.key)) + 1
            && t.records[op.key].deleted == op.kind.Delete?
            && t.categories[op.category].present == (!op.kind.Delete? || AnyLive(t.records, op.category))
            && t.operations.Keys == s.operations.Keys + {LedgerKey(ctx.clientId, op.operationId)}
  {
    hide AnyLive, Pushed;
    var payload, outcome := PushedIsAccept(cfg, s, ctx, op);
  }

  lemma TwoRecords(records: Records, summaries: Summaries, k: Key, l: Key)
    requires records.Keys == {k, l} && k != l && summaries.Keys == {Todos, Notes}
    requires records[k].category == Notes && records[k].sequence == summaries[Notes].lastSequence
    requires records[l].category == Todos && records[l].sequence == summaries[Todos].lastSequence
    requires summaries[Notes].present == AnyLive(records, Notes) && summaries[Todos].present && !records[l].deleted
    ensures SummariesRight(records, summaries)
  {
    assert k in records && l in records && AnyLive(records, Todos);
    hide AnyLive;
    forall c ensures SummaryRight(records, summaries, c) {}
  }

  lemma NumberWithoutRecord(records: Records, summaries: Summaries, k: Key, l: Key)
    requires records.Keys == {k, l} && records[k].category == Todos && records[l].category == Todos
             && Notes in summaries
    ensures !SummariesRight(records, summaries)
  {
    assert !SummaryRight(records, summaries, Notes);
  }

  /**
    Of two to-dos one is deleted under the category of notes, which leaves all summaries right, and
    then written again under its own: now the summary of notes names a number that no record has.
   */
  lemma RefiledUpsert(cfg: Config, scope: Scope, payload: Payload)
    requires cfg.valid(Todo, payload)
    ensures var k, l, ctx := Key(Todo, "k"), Key(Todo, "l"), Context(scope, "c", None);
            var s1 := Pushed(cfg, NewSpace(scope, 1), ctx, Put("1", k, Todos, 0, payload));
            var s2 := Pushed(cfg, s1, ctx, Put("2", l, Todos, 0, payload));
            var s3 := Pushed(cfg, s2, ctx, Remove("3", k, Notes, 1));
            var s4 := Pushed(cfg, s3, ctx, Put("4", k, Todos, 2, payload));
            SummariesRight(s3.records, s3.categories) && !SummariesRight(s4.records, s4.categories)
  {
    hide ApplyOperation, SummariesRight, AnyLive, CarriedOut;
    var k, l, ctx := Key(Todo, "k"), Key(Todo, "l"), Context(scope, "c", None);
    var s1 := Pushed(cfg, NewSpace(scope, 1), ctx, Put("1", k, Todos, 0, payload));
    var s2 := Pushed(cfg, s1, ctx, Put("2", l, Todos, 0, payload));
    var op3 := Remove("3", k, Notes, 1);
    var op4 := Put("4", k, Todos, 2, payload);
    TwoTodos(cfg, scope, payload);
    assert CarriedOut(cfg, s2, ctx, op3) by { Carry(cfg, s2, ctx, op3); }
    PushedRevision(cfg, s2, ctx, op3);
    var s3 := Pushed(cfg, s2, ctx, op3);
    assert CarriedOut(cfg, s3, ctx, op4) by { Carry(cfg, s3, ctx, op4); }
    PushedRevision(cfg, s3, ctx, op4);
    var s4 := Pushed(cfg, s3, ctx, op4);
    assert s3.records.Keys == {k, l} && s3.categories.Keys == {Todos, Notes};
    TwoRecords(s3.records, s3.categories, k, l);
    NumberWithoutRecord(s4.records, s4.categories, k, l);
  }

  lemma Carry(cfg: Config, s: Space, ctx: Context, op: Operation)
    requires Refusal(cfg, op).None? && ctx.restoreEpoch.None?
             && LedgerKey(ctx.clientId, op.operationId) !in s.operations
    requires !op.kind.ResolveConflict? && !IsStale(op, Current(s, op.key))
    ensures CarriedOut(cfg, s, ctx, op)
  {
  }

  lemma TwoTodos(cfg: Config, scope: Scope, payload: Payload)
    requires cfg.valid(Todo, payload)
    ensures var k, l, ctx := Key(Todo, "k"), Key(Todo, "l"), Context(scope, "c", None);
            var s1 := Pushed(cfg, NewSpace(scope, 1), ctx, Put("1", k, Todos, 0, payload));
            var s2 := Pushed(cfg, s1, ctx, Put("2", l, Todos, 0, payload));
            && s2.records.Keys == {k, l} && s2.records[k].category == Todos && s2.records[k].revision == 1
               && s2.records[k].sequence == 1
            && s2.records[l].category == Todos && !s2.records[l].deleted
               && s2.records[l].sequence == 2 == s2.nextSequence
            && s2.categories.Keys == {Todos} && s2.categories[Todos].present && s2.categories[Todos].lastSequence == 2
            && s2.operations.Keys == {LedgerKey("c", "1"), LedgerKey("c", "2")}
  {
    hide ApplyOperation, AnyLive, CarriedOut;
    var k, l, ctx := Key(Todo, "k"), Key(Todo, "l"), Context(scope, "c", None);
    var op1 := Put("1", k, Todos, 0, payload);
    var op2 := Put("2", l, Todos, 0, payload);
    Carry(cfg, NewSpace(scope, 1), ctx, op1);
    PushedRevision(cfg, NewSpace(scope, 1), ctx, op1);
    var s1 := Pushed(cfg, NewSpace(scope, 1), ctx, op1);
    Carry(cfg, s1, ctx, op2);
    PushedRevision(cfg, s1, ctx, op2);
  }
}
