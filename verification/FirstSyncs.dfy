/**
  Destructive first-sync plans. A plan commits to revisions only, yet it executes on exactly the
  rows it was made for, does exactly what it announced, and does it at most once.
 */
module FirstSyncs {
  import opened Wrappers
  import opened Schema
  import opened Replication
  import opened Runs

  predicate IsLiveSelected(s: Space, categories: set<Category>, key: Key) {
    key in s.records && Selects(categories, s.records[key].category) && !s.records[key].deleted
  }

  /** What a row becomes when the plan tombstones it: payload and category are kept. */
  function Tombstoned(cfg: Config, ctx: Context, r: Record, sequence: nat, stamp: Stamp): Record {
    Record(r.key, r.category, r.revision + 1, stamp.now, ctx.clientId, true, r.payload, sequence,
           Some(stamp.now + cfg.tombstoneDays * DAY))
  }

  predicate Executes(s: Space, ctx: Context, plan: Plan, request: PlanRequest, now: int) {
    PlanMatches(plan, ctx, request, now) && !request.mode.ServerWins? && EpochAllows(s, ctx)
      && Impact(s, plan.categories) == plan.impact
  }

  // ---------------------------------------------------------------- which plans execute

  lemma ConfirmationsExactly(mode: Mode, text: string)
    ensures text == Confirmation(mode) <==>
            match mode
            case LocalWins => text == "REPLACE SERVER"
            case ServerWins => text == "REPLACE THIS DEVICE"
            case CategoryClear => text == "DELETE SERVER CATEGORY DATA"
  {
  }

  lemma MatchesExactly(plan: Plan, ctx: Context, request: PlanRequest, now: int)
    ensures PlanMatches(plan, ctx, request, now) <==>
            && plan.scope.accountId == ctx.scope.accountId && plan.scope.spaceId == ctx.scope.spaceId
            && plan.clientId == ctx.clientId && plan.planId == request.planId
            && plan.recoveryPointId == request.recoveryPointId && plan.mode == request.mode && now < plan.expiresAt
            && (request.mode == LocalWins ==> request.confirmation == "REPLACE SERVER")
            && (request.mode == ServerWins ==> request.confirmation == "REPLACE THIS DEVICE")
            && (request.mode == CategoryClear ==> request.confirmation == "DELETE SERVER CATEGORY DATA")
  {
    ConfirmationsExactly(request.mode, request.confirmation);
    hide Confirmation;
  }

  /** The impact of a plan is that of a space when it names the selected rows as they are, and no others. */
  lemma ImpactExactly(s: Space, categories: set<Category>, impact: map<Key, Tag>)
    ensures Impact(s, categories) == impact <==>
            forall key ::
              && (key in impact <==> key in s.records && (categories == {} || s.records[key].category in categories))
              && (key in impact && key in s.records ==>
                  impact[key] == Tag(s.records[key].category, s.records[key].revision, s.records[key].deleted))
  {
    if Impact(s, categories) != impact {
      if Impact(s, categories).Keys == impact.Keys {
        var key :| key in impact && Impact(s, categories)[key] != impact[key];
        assert key in Selected(s.records, categories);
      } else {
        var key :| (key in impact) != (key in Impact(s, categories));
        assert key in Impact(s, categories) <==> key in Selected(s.records, categories);
      }
    }
  }

  /**
    Which plans are refused, and with what, and which are carried out: the plan must be of this caller and
    this request, confirmed in the words of its mode and not expired; the caller's epoch, if it names one,
    must be that of the space, unless the server wins; and the selected rows must be those it was made for.
   */
  lemma PlansExactly(cfg: Config, s: Space, ctx: Context, plan: Plan, request: PlanRequest, now: int, rows: seq<Key>,
                     stamps: seq<Stamp>)
    requires |stamps| == |rows| && forall key :: key in rows ==> key in s.records
    ensures var answer := ExecuteFirstSync(cfg, s, ctx, plan, request, now, rows, stamps).answer;
            var matches :=
              && plan.scope.accountId == ctx.scope.accountId && plan.scope.spaceId == ctx.scope.spaceId
              && plan.clientId == ctx.clientId && plan.planId == request.planId
              && plan.recoveryPointId == request.recoveryPointId && plan.mode == request.mode && now < plan.expiresAt
              && (request.mode == LocalWins ==> request.confirmation == "REPLACE SERVER")
              && (request.mode == ServerWins ==> request.confirmation == "REPLACE THIS DEVICE")
              && (request.mode == CategoryClear ==> request.confirmation == "DELETE SERVER CATEGORY DATA");
            var epoch := request.mode == ServerWins || ctx.restoreEpoch == None
              || ctx.restoreEpoch == Some(s.restoreEpoch);
            var asPlanned :=
              forall key ::
                && (key in plan.impact <==>
                    key in s.records && (plan.categories == {} || s.records[key].category in plan.categories))
                && (key in plan.impact && key in s.records ==>
                    plan.impact[key] == Tag(s.records[key].category, s.records[key].revision, s.records[key].deleted));
            && (answer == Err(FirstSyncPlanChanged) <==> !matches)
            && (answer == Err(RestoreEpochChanged) <==> matches && !epoch)
            && (answer == Err(FirstSyncImpactChanged) <==> matches && epoch && !asPlanned)
            && (matches && epoch && asPlanned ==> answer == Ok(if request.mode == ServerWins then [] else rows))
  {
    MatchesExactly(plan, ctx, request, now);
    ImpactExactly(s, plan.categories, plan.impact);
    hide PlanMatches, Impact, TombstoneAll;
  }

  /**
    ABA-freedom: revisions name versions, and versions never change, so rows with the same
    revisions are the same rows, payload included, whatever happened in between.
   */
  lemma SameImpactSameRows(cfg: Config, s: Space, events: seq<Event>, categories: set<Category>)
    requires Inv(s) && PossibleRun(cfg, s, events)
    ensures var t := Run(cfg, s, events);
            Impact(t, categories) == Impact(s, categories) <==>
                Selected(t.records, categories) == Selected(s.records, categories)
  {
    RunKeeps(cfg, s, events);
    var t := Run(cfg, s, events);
    if Impact(t, categories) == Impact(s, categories) {
      SameTags(s, t, categories);
    } else if Selected(t.records, categories) == Selected(s.records, categories) {
      SameRows(s, t, categories);
    }
  }

  lemma SameTags(s: Space, t: Space, categories: set<Category>)
    requires Newest(s.records, s.versions) && Newest(t.records, t.versions) && VersionsGrow(s.versions, t.versions)
    requires Impact(t, categories) == Impact(s, categories)
    ensures Selected(t.records, categories) == Selected(s.records, categories)
  {
    var p, q := Selected(s.records, categories), Selected(t.records, categories);
    assert p.Keys == Impact(s, categories).Keys && q.Keys == Impact(t, categories).Keys;
    forall key | key in p ensures p[key] == q[key] {
      assert Impact(s, categories)[key].revision == Impact(t, categories)[key].revision;
    }
  }

  lemma SameRows(s: Space, t: Space, categories: set<Category>)
    requires Selected(t.records, categories) == Selected(s.records, categories)
    ensures Impact(t, categories) == Impact(s, categories)
  {
    forall key | key in Selected(s.records, categories) ensures s.records[key] == t.records[key] {
      assert Selected(s.records, categories)[key] == Selected(t.records, categories)[key];
    }
  }

  lemma {:induction false} TombstonesExactly(cfg: Config, s: Space, ctx: Context, rows: seq<Key>, stamps: seq<Stamp>)
    requires |stamps| == |rows| && (forall key :: key in rows ==> key in s.records && s.records[key].key == key)
    requires forall i, j :: 0 <= i < j < |rows| ==> rows[i] != rows[j]
    ensures var t := TombstoneAll(cfg, s, ctx, rows, stamps);
            && t.nextSequence == s.nextSequence + |rows|
            && (forall i :: 0 <= i < |rows| ==>
                  t.records[rows[i]] == Tombstoned(cfg, ctx, s.records[rows[i]], s.nextSequence + i + 1, stamps[i]))
            && (forall key :: key in s.records && key !in rows ==> t.records[key] == s.records[key])
    decreases |rows|
  {
    hide AnyLive, CategoryAfter;
    if rows != [] {
      var u := Tombstone(cfg, s, ctx, rows[0], stamps[0]);
      var rest := rows[1..];
      assert u.records == s.records[rows[0] := Tombstoned(cfg, ctx, s.records[rows[0]], s.nextSequence + 1, stamps[0])];
      assert rows[0] !in rest;
      TombstonesExactly(cfg, u, ctx, rest, stamps[1..]);
      var t := TombstoneAll(cfg, s, ctx, rows, stamps);
      forall i | 0 <= i < |rows|
        ensures t.records[rows[i]] == Tombstoned(cfg, ctx, s.records[rows[i]], s.nextSequence + i + 1, stamps[i])
      {
        if i > 0 {
          assert rows[i] == rest[i - 1] && u.records[rows[i]] == s.records[rows[i]];
        }
      }
    }
  }

  lemma ExecutionTombstones(cfg: Config, s: Space, ctx: Context, plan: Plan, request: PlanRequest, now: int,
                            rows: seq<Key>, stamps: seq<Stamp>)
    requires Inv(s) && |stamps| == |rows| && ListsLive(s, plan.categories, rows)
    ensures var t := ExecuteFirstSync(cfg, s, ctx, plan, request, now, rows, stamps).space;
            if Executes(s, ctx, plan, request, now) then
              && t.nextSequence == s.nextSequence + |rows|
              && t.records.Keys == s.records.Keys
              && (forall i :: 0 <= i < |rows| ==>
                    t.records[rows[i]] == Tombstoned(cfg, ctx, s.records[rows[i]], s.nextSequence + i + 1, stamps[i]))
              && (forall key :: key in s.records && !IsLiveSelected(s, plan.categories, key) ==>
                  t.records[key] == s.records[key])
            else t == s
  {
    hide TombstoneAll, Tombstoned, Dense, Filed, Ordered, Described, DenseLog, ConflictsFiled, LedgerHonest;
    TombstonesExactly(cfg, s, ctx, rows, stamps);
    forall key | key in s.records && !IsLiveSelected(s, plan.categories, key) ensures key !in rows {
      assert key in rows <==>
               key in s.records && Selects(plan.categories, s.records[key].category) && !s.records[key].deleted;
    }
  }

  /**
    A plan that is carried out, and does not leave the server as it is, turns exactly the live rows of its
    categories into tombstones, with the next revisions and consecutive sequence numbers; everything else,
    and every other plan, changes nothing.
   */
  lemma ExecutionIsExact(cfg: Config, s: Space, ctx: Context, plan: Plan, request: PlanRequest, now: int,
                         rows: seq<Key>, stamps: seq<Stamp>)
    requires Inv(s) && |stamps| == |rows| && ListsLive(s, plan.categories, rows)
    ensures var t := ExecuteFirstSync(cfg, s, ctx, plan, request, now, rows, stamps).space;
            if && plan.scope.accountId == ctx.scope.accountId && plan.scope.spaceId == ctx.scope.spaceId
               && plan.clientId == ctx.clientId && plan.planId == request.planId
               && plan.recoveryPointId == request.recoveryPointId && plan.mode == request.mode && now < plan.expiresAt
               && (request.mode == LocalWins ==> request.confirmation == "REPLACE SERVER")
               && (request.mode == CategoryClear ==> request.confirmation == "DELETE SERVER CATEGORY DATA")
               && request.mode != ServerWins
               && (ctx.restoreEpoch == None || ctx.restoreEpoch == Some(s.restoreEpoch))
               && forall key ::
                    && (key in plan.impact <==>
                        key in s.records && (plan.categories == {} || s.records[key].category in plan.categories))
                    && (key in plan.impact && key in s.records ==>
                        plan.impact[key] == Tag(s.records[key].category, s.records[key].revision,
                                                s.records[key].deleted))
            then
              && t.nextSequence == s.nextSequence + |rows|
              && t.records.Keys == s.records.Keys
              && (forall i :: 0 <= i < |rows| ==>
                    var r := s.records[rows[i]];
                    t.records[rows[i]] ==
                    Record(r.key, r.category, r.revision + 1, stamps[i].now, ctx.clientId, true, r.payload,
                           s.nextSequence + i + 1, Some(stamps[i].now + cfg.tombstoneDays * 86400000)))
              && (forall key ::
                    key in s.records
                    && (s.records[key].deleted
                        || (plan.categories != {} && s.records[key].category !in plan.categories)) ==>
                    t.records[key] == s.records[key])
            else t == s
  {
    hide *;
    ExecutionTombstones(cfg, s, ctx, plan, request, now, rows, stamps);
    ExecutesExactly(s, ctx, plan, request, now);
    MatchesExactly(plan, ctx, request, now);
    ImpactExactly(s, plan.categories, plan.impact);
    ListedAreThere(s, plan.categories, rows);
    forall i | 0 <= i < |rows| {
      TombstonedExactly(cfg, ctx, s.records[rows[i]], s.nextSequence + i + 1, stamps[i]);
    }
    LiveSelectedExactly(s, plan.categories);
  }

  lemma ExecutesExactly(s: Space, ctx: Context, plan: Plan, request: PlanRequest, now: int)
    ensures Executes(s, ctx, plan, request, now) <==>
            && PlanMatches(plan, ctx, request, now) && request.mode != ServerWins
            && (ctx.restoreEpoch == None || ctx.restoreEpoch == Some(s.restoreEpoch))
            && Impact(s, plan.categories) == plan.impact
  {
    hide PlanMatches, Impact;
  }

  lemma ListedAreThere(s: Space, categories: set<Category>, rows: seq<Key>)
    requires ListsLive(s, categories, rows)
    ensures forall i :: 0 <= i < |rows| ==> rows[i] in s.records
  {
  }

  lemma TombstonedExactly(cfg: Config, ctx: Context, r: Record, sequence: nat, stamp: Stamp)
    ensures Tombstoned(cfg, ctx, r, sequence, stamp) ==
            Record(r.key, r.category, r.revision + 1, stamp.now, ctx.clientId, true, r.payload, sequence,
                   Some(stamp.now + cfg.tombstoneDays * 86400000))
  {
  }

  lemma LiveSelectedExactly(s: Space, categories: set<Category>)
    ensures forall key ::
              IsLiveSelected(s, categories, key) <==>
              && key in s.records && !s.records[key].deleted
              && (categories == {} || s.records[key].category in categories)
  {
  }

  /** Once a plan has tombstoned a row it is never carried out again, in any later state. */
  lemma ExecutesAtMostOnce(cfg: Config, s: Space, ctx: Context, plan: Plan, request: PlanRequest, now: int,
                           rows: seq<Key>, stamps: seq<Stamp>, later: Space, ctx': Context, request': PlanRequest,
                           now': int, rows': seq<Key>, stamps': seq<Stamp>)
    requires Inv(s) && |stamps| == |rows| && ListsLive(s, plan.categories, rows) && rows != []
    requires ExecuteFirstSync(cfg, s, ctx, plan, request, now, rows, stamps).answer == Ok(rows)
    requires Grows(ExecuteFirstSync(cfg, s, ctx, plan, request, now, rows, stamps).space, later)
    requires |stamps'| == |rows'| && forall key :: key in rows' ==> key in later.records
    ensures ExecuteFirstSync(cfg, later, ctx', plan, request', now', rows', stamps').answer.Err?
  {
    AnsweredWithRows(cfg, s, ctx, plan, request, now, rows, stamps);
    ExecutionTombstones(cfg, s, ctx, plan, request, now, rows, stamps);
    NeverAgain(cfg, later, ctx', plan, request', now', rows', stamps');
    hide ExecuteFirstSync, Inv, Impact, PlanMatches;
    var t := ExecuteFirstSync(cfg, s, ctx, plan, request, now, rows, stamps).space;
    var key := rows[0];
    assert key in rows;
    assert t.records[key].revision == s.records[key].revision + 1 <= later.records[key].revision;
    ImpactNamesRevisions(s, plan.categories, key);
    if Impact(later, plan.categories) == Impact(s, plan.categories) {
      ImpactNamesRevisions(later, plan.categories, key);
    }
  }

  lemma AnsweredWithRows(cfg: Config, s: Space, ctx: Context, plan: Plan, request: PlanRequest, now: int,
                         rows: seq<Key>, stamps: seq<Stamp>)
    requires |stamps| == |rows| && rows != [] && forall key :: key in rows ==> key in s.records
    requires ExecuteFirstSync(cfg, s, ctx, plan, request, now, rows, stamps).answer == Ok(rows)
    ensures Executes(s, ctx, plan, request, now)
  {
    hide PlanMatches, Impact, TombstoneAll;
  }

  lemma NeverAgain(cfg: Config, s: Space, ctx: Context, plan: Plan, request: PlanRequest, now: int, rows: seq<Key>,
                   stamps: seq<Stamp>)
    requires |stamps| == |rows| && forall key :: key in rows ==> key in s.records
    ensures Impact(s, plan.categories) != plan.impact ==>
              ExecuteFirstSync(cfg, s, ctx, plan, request, now, rows, stamps).answer.Err?
  {
    hide PlanMatches, Impact, TombstoneAll;
  }

  lemma ImpactNamesRevisions(s: Space, categories: set<Category>, key: Key)
    ensures key in Impact(s, categories) ==>
              key in s.records && Impact(s, categories)[key].revision == s.records[key].revision
    ensures IsLiveSelected(s, categories, key) ==> key in Impact(s, categories)
  {
  }
}
