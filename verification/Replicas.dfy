/**
  The change log determines the records: a client that replays it holds what the server holds.
 */
module Replicas {
  import opened Wrappers
  import opened Schema
  import opened Merging
  import opened Replication
  import opened Runs
  import opened Histories

  /** What a client does with one log entry: conflicts carry no record. */
  function Apply(records: Records, c: Change): Records {
    match c.body
    case Stored(_, _, r) => records[c.key := r]
    case Conflicting(_) => records
  }

  function Replay(start: Records, changes: seq<Change>): Records {
    if changes == [] then start
    else Apply(Replay(start, changes[..|changes| - 1]), changes[|changes| - 1])
  }

  /** The log of the current epoch replays to the records, from what they were when it began. */
  ghost predicate Replays(start: Records, s: Space) {
    Replay(start, s.changes) == s.records
  }

  /** The records at the beginning of the epoch in which a run ends. */
  ghost function EpochStart(cfg: Config, s: Space, start: Records, events: seq<Event>): Records
    requires PossibleRun(cfg, s, events)
    decreases |events|
  {
    if events == [] then start
    else EpochStart(cfg, Step(cfg, s, events[0]), if events[0].NewEpoch? then s.records else start, events[1..])
  }

  lemma ReplayAppend(start: Records, changes: seq<Change>, c: Change)
    ensures Replay(start, changes + [c]) == Apply(Replay(start, changes), c)
  {
    assert (changes + [c])[..|changes|] == changes;
  }

  lemma {:induction false} ReplayConcat(start: Records, first: seq<Change>, second: seq<Change>)
    ensures Replay(start, first + second) == Replay(Replay(start, first), second)
    decreases |second|
  {
    if second == [] {
      assert first + second == first;
    } else {
      var n := |second| - 1;
      assert (first + second)[..|first + second| - 1] == first + second[..n];
      ReplayConcat(start, first, second[..n]);
    }
  }

  lemma MoveReplays(cfg: Config, s: Space, m: Move, start: Records)
    requires Playable(s, m) && !m.EpochMove? && Replays(start, s)
    ensures Replays(start, Play(cfg, s, m))
  {
    var t := Play(cfg, s, m);
    if |t.changes| == |s.changes| + 1 {
      ReplayAppend(start, s.changes, t.changes[|s.changes|]);
    }
  }

  lemma {:induction false} MovesReplay(cfg: Config, s: Space, moves: seq<Move>, start: Records)
    requires PlayableAll(cfg, s, moves) && EpochMove !in moves && Replays(start, s)
    ensures Replays(start, PlayAll(cfg, s, moves))
    decreases |moves|
  {
    hide Playable, Play, Replays;
    if moves != [] {
      assert moves[0] in moves;
      MoveReplays(cfg, s, moves[0], start);
      MovesReplay(cfg, Play(cfg, s, moves[0]), moves[1..], start);
    }
  }

  lemma StepReplays(cfg: Config, s: Space, e: Event, start: Records)
    requires Inv(s) && Possible(s, e) && Replays(start, s)
    ensures Replays(if e.NewEpoch? then s.records else start, Step(cfg, s, e))
  {
    if !e.NewEpoch? {
      hide Step, Replays;
      var moves := EventIsMoves(cfg, s, e);
      MovesReplay(cfg, s, moves, start);
    }
  }

  /**
    In every state of a run the records are the epoch's starting records overlaid with the log.
   */
  lemma {:induction false} RunReplays(cfg: Config, s: Space, events: seq<Event>, start: Records)
    requires Inv(s) && PossibleRun(cfg, s, events) && Replays(start, s)
    ensures Replays(EpochStart(cfg, s, start, events), Run(cfg, s, events))
    decreases |events|
  {
    hide Inv, Step, Replays;
    if events != [] {
      StepReplays(cfg, s, events[0], start);
      StepKeeps(cfg, s, events[0]);
      RunReplays(cfg, Step(cfg, s, events[0]), events[1..], if events[0].NewEpoch? then s.records else start);
    }
  }

  /** A run that ends in the epoch it started in never left it, so its log replays from the same start. */
  lemma {:induction false} SameEpochReplays(cfg: Config, s: Space, events: seq<Event>, start: Records)
    requires Inv(s) && PossibleRun(cfg, s, events) && Replays(start, s)
    requires Run(cfg, s, events).restoreEpoch == s.restoreEpoch
    ensures Replays(start, Run(cfg, s, events))
    decreases |events|
  {
    hide Inv, Replays;
    if events != [] {
      var t := Step(cfg, s, events[0]);
      StepReplays(cfg, s, events[0], start);
      StepKeeps(cfg, s, events[0]);
      RunKeeps(cfg, t, events[1..]);
      hide Step;
      assert s.restoreEpoch <= t.restoreEpoch <= Run(cfg, s, events).restoreEpoch;
      SameEpochReplays(cfg, t, events[1..], start);
    }
  }

  // ---------------------------------------------------------------- replicas of some categories

  /** The log entries of some categories above lo and up to hi, in log order. */
  function Slice(changes: seq<Change>, categories: set<Category>, lo: int, hi: int): seq<Change> {
    if changes == [] then []
    else
      var n := |changes| - 1;
      Slice(changes[..n], categories, lo, hi) +
      (if lo < changes[n].sequence <= hi && Selects(categories, changes[n].category) then [changes[n]] else [])
  }

  predicate InSlice(c: Change, categories: set<Category>, lo: int, hi: int) {
    lo < c.sequence <= hi && Selects(categories, c.category)
  }

  lemma SliceNext(changes: seq<Change>, categories: set<Category>, lo: int, hi: int)
    requires changes != []
    ensures var rest, last := changes[..|changes| - 1], changes[|changes| - 1];
            Slice(changes, categories, lo, hi) ==
            if InSlice(last, categories, lo, hi) then Slice(rest, categories, lo, hi) + [last]
               else Slice(rest, categories, lo, hi)
  {
  }

  lemma InSliceFacts(c: Change, categories: set<Category>, lo: int, hi: int)
    ensures InSlice(c, categories, lo, hi) <==> InSlice(c, {}, lo, hi) && Selects(categories, c.category)
  {
  }

  lemma SliceEndsWith(changes: seq<Change>, lo: int, hi: int)
    requires changes != [] && lo < changes[|changes| - 1].sequence <= hi
    ensures Slice(changes, {}, lo, hi) == Slice(changes[..|changes| - 1], {}, lo, hi) + [changes[|changes| - 1]]
  {
  }

  lemma {:induction false} WholeSlice(changes: seq<Change>, lo: int, hi: int)
    requires forall i :: 0 <= i < |changes| ==> lo < changes[i].sequence <= hi
    ensures Slice(changes, {}, lo, hi) == changes
    decreases |changes|
  {
    if changes != [] {
      var rest, last := changes[..|changes| - 1], changes[|changes| - 1];
      WholeSlice(rest, lo, hi);
      SliceEndsWith(changes, lo, hi);
      hide Slice;
      assert changes == rest + [last];
    }
  }

  /** The last record that a log bears for an entity. */
  function LastOf(changes: seq<Change>, key: Key): Option<Record> {
    if changes == [] then None
    else
      var n := |changes| - 1;
      if changes[n].key == key && changes[n].body.Stored? then Some(changes[n].body.record)
         else LastOf(changes[..n], key)
  }

  lemma LastNext(changes: seq<Change>, c: Change, key: Key)
    ensures LastOf(changes + [c], key) ==
            if c.key == key && c.body.Stored? then Some(c.body.record) else LastOf(changes, key)
  {
    assert (changes + [c])[..|changes|] == changes;
  }

  /** The log bears a record of the entity under one of the categories. */
  ghost predicate Bears(changes: seq<Change>, categories: set<Category>, key: Key) {
    exists c :: c in changes && BearsRecord(c, categories, key)
  }

  predicate BearsRecord(c: Change, categories: set<Category>, key: Key) {
    c.key == key && c.body.Stored? && Selects(categories, c.category)
  }

  function RecordAt(records: Records, key: Key): Option<Record> {
    if key in records then Some(records[key]) else None
  }

  /** A replay holds the last record of every entity the log bears, and leaves the others alone. */
  lemma {:induction false} ReplayAt(start: Records, changes: seq<Change>, key: Key)
    ensures var last := LastOf(changes, key);
            RecordAt(Replay(start, changes), key) == if last.Some? then last else RecordAt(start, key)
    decreases |changes|
  {
    if changes != [] {
      ReplayAt(start, changes[..|changes| - 1], key);
    }
  }

  /**
    Of an entity that a log bears in a selected category last, a slice that covers the log bears the
    same record last; and the slice bears what the log bears under the categories.
   */
  lemma {:induction false} LastOfSlice(changes: seq<Change>, categories: set<Category>, lo: int, hi: int, key: Key)
    requires forall i :: 0 <= i < |changes| ==> lo < changes[i].sequence <= hi && FiledAsRecord(changes[i])
    ensures var last, part := LastOf(changes, key), LastOf(Slice(changes, categories, lo, hi), key);
            && (last.Some? && Selects(categories, last.value.category) ==> part == last)
            && (part.Some? ==> last.Some?)
            && (part.Some? <==> Bears(changes, categories, key))
    decreases |changes|
  {
    hide Selects, Slice, Bears;
    if changes == [] {
      NoSlice(categories, lo, hi);
      BearsNothing(categories, key);
    } else {
      var rest, last := changes[..|changes| - 1], changes[|changes| - 1];
      LastOfSlice(rest, categories, lo, hi, key);
      SliceNext(changes, categories, lo, hi);
      LastNext(Slice(rest, categories, lo, hi), last, key);
      BearsNext(rest, last, categories, key);
      assert changes == rest + [last];
    }
  }

  lemma BearsNothing(categories: set<Category>, key: Key)
    ensures !Bears([], categories, key)
  {
  }

  lemma BearsNext(changes: seq<Change>, c: Change, categories: set<Category>, key: Key)
    ensures Bears(changes + [c], categories, key) <==>
              Bears(changes, categories, key) || BearsRecord(c, categories, key)
  {
    hide BearsRecord;
    assert c in changes + [c];
  }

  ghost predicate FiledAsRecord(c: Change) {
    c.body.Stored? ==> c.category == c.body.record.category
  }

  /** One more log entry, seen through a filter. */
  function ApplyFiltered(records: Records, c: Change, categories: set<Category>): Records {
    if Selects(categories, c.category) then Apply(records, c) else records
  }

  /** A revision filed under a category takes the record out of what the filter selects. */
  predicate LeavesFilter(records: Records, key: Key, category: Category, categories: set<Category>) {
    key in records && Selects(categories, records[key].category) && !Selects(categories, category)
  }

  /**
    The replica of one filter follows a newly accepted revision exactly when the revision does not
    take a selected record out of the filter.
   */
  lemma FilteredReplicaFollows(cfg: Config, s: Space, clientId: Id, edit: Edit, payload: Option<Payload>, deleted: bool,
                               now: int, categories: set<Category>)
    ensures var t := Accept(cfg, s, clientId, edit, payload, deleted, now);
            var c := t.changes[|s.changes|];
            Selected(t.records, categories) == ApplyFiltered(Selected(s.records, categories), c, categories)
            <==> !LeavesFilter(s.records, edit.key, edit.category, categories)
  {
    var t := Accept(cfg, s, clientId, edit, payload, deleted, now);
    var before, after := Selected(s.records, categories), Selected(t.records, categories);
    hide Selects;
    if LeavesFilter(s.records, edit.key, edit.category, categories) {
      assert edit.key in before && edit.key !in after;
    } else if Selects(categories, edit.category) {
      assert after == before[edit.key := t.records[edit.key]];
    } else {
      assert after == before;
    }
  }

  /** The replicas of all filters follow it exactly when the record stays in its category. */
  lemma EveryReplicaFollows(cfg: Config, s: Space, clientId: Id, edit: Edit, payload: Option<Payload>, deleted: bool,
                            now: int)
    ensures var t := Accept(cfg, s, clientId, edit, payload, deleted, now);
            var c := t.changes[|s.changes|];
            (forall categories ::
             Selected(t.records, categories) == ApplyFiltered(Selected(s.records, categories), c, categories))
            <==> (edit.key in s.records ==> s.records[edit.key].category == edit.category)
  {
    hide Accept, Selected, ApplyFiltered;
    forall categories {
      FilteredReplicaFollows(cfg, s, clientId, edit, payload, deleted, now, categories);
    }
    if edit.key in s.records && s.records[edit.key].category != edit.category {
      assert LeavesFilter(s.records, edit.key, edit.category, {s.records[edit.key].category});
    }
  }

  /** Every log entry that bears a record files it under the registered category. */
  ghost predicate RegisteredLog(changes: seq<Change>) {
    forall i :: 0 <= i < |changes| && changes[i].body.Stored? ==> RegisteredChange(changes[i])
  }

  ghost predicate RegisteredChange(c: Change) {
    c.body.Stored? && c.category == c.body.record.category == CategoryOf(c.key.entityType)
  }

  lemma FilteredApply(records: Records, c: Change, categories: set<Category>)
    requires Registered(records) && (c.body.Stored? ==> RegisteredChange(c))
    ensures Selected(Apply(records, c), categories) == ApplyFiltered(Selected(records, categories), c, categories)
    ensures Registered(Apply(records, c))
  {
  }

  /** A client that replays a filtered part of the log holds the selected part of what all of it gives. */
  lemma {:induction false} FilteredReplay(start: Records, changes: seq<Change>, categories: set<Category>, lo: int,
                                          hi: int)
    requires Registered(start) && RegisteredLog(changes)
    ensures Replay(Selected(start, categories), Slice(changes, categories, lo, hi)) ==
            Selected(Replay(start, Slice(changes, {}, lo, hi)), categories)
    ensures Registered(Replay(start, Slice(changes, {}, lo, hi)))
    decreases |changes|
  {
    hide Registered, RegisteredChange, Apply, ApplyFiltered, Selected, Slice, Replay, Selects, InSlice;
    if changes == [] {
      NoSlice(categories, lo, hi);
      NoSlice({}, lo, hi);
      ReplayNothing(start);
      ReplayNothing(Selected(start, categories));
    } else {
      var n := |changes| - 1;
      var rest, part, last := Slice(changes[..n], {}, lo, hi), Slice(changes[..n], categories, lo, hi), changes[n];
      FilteredReplay(start, changes[..n], categories, lo, hi);
      SliceNext(changes, {}, lo, hi);
      SliceNext(changes, categories, lo, hi);
      InSliceFacts(last, categories, lo, hi);
      if InSlice(last, {}, lo, hi) {
        FilteredApply(Replay(start, rest), last, categories);
        ReplayAppend(start, rest, last);
        ReplayAppend(Selected(start, categories), part, last);
        ApplyOutside(Selected(Replay(start, rest), categories), last, categories);
      }
    }
  }

  lemma NoSlice(categories: set<Category>, lo: int, hi: int)
    ensures Slice([], categories, lo, hi) == []
  {
  }

  lemma ReplayNothing(start: Records)
    ensures Replay(start, []) == start
  {
  }

  /** A filtered client takes in what its filter selects, and nothing else. */
  lemma ApplyOutside(records: Records, c: Change, categories: set<Category>)
    ensures ApplyFiltered(records, c, categories) == if Selects(categories, c.category) then Apply(records, c)
            else records
  {
  }

  /** In a state whose versions are registered, so is the log, and it lies within the counter. */
  lemma LogFacts(s: Space)
    requires Inv(s)
    ensures RegisteredVersions(s.versions) ==> RegisteredLog(s.changes)
    ensures forall i :: 0 <= i < |s.changes| ==>
              0 < s.changes[i].sequence <= s.nextSequence && FiledAsRecord(s.changes[i])
  {
    hide Newest, Dense, Filed, Ordered, ConflictsFiled, LedgerHonest;
    if RegisteredVersions(s.versions) {
      forall i | 0 <= i < |s.changes| && s.changes[i].body.Stored? ensures RegisteredChange(s.changes[i]) {
        assert Describes(s.changes[i], s.versions, s.conflicts);
      }
    }
  }

  /**
    Filtered replicas converge: with registry categories on deletes, replaying the filtered log of
    the epoch gives exactly the selected records, tombstones included, in every state of a run.
   */
  lemma FilteredReplicasConverge(cfg: Config, s: Space, events: seq<Event>, start: Records, categories: set<Category>)
    requires Inv(s) && Summarised(s) && Replays(start, s) && Registered(start) && PossibleRun(cfg, s, events)
    requires forall e :: e in events ==> RegistryDelete(e)
    ensures var t := Run(cfg, s, events);
            Replay(Selected(EpochStart(cfg, s, start, events), categories),
                   Slice(t.changes, categories, 0, t.nextSequence))
            == Selected(t.records, categories)
  {
    hide Inv, PossibleRun, EpochStart, Run, SummaryRight, Registered, RegisteredLog, RegisteredVersions, Slice;
    RunReplays(cfg, s, events, start);
    RunKeeps(cfg, s, events);
    RunSummarises(cfg, s, events);
    EpochStartRegistered(cfg, s, events, start);
    var t := Run(cfg, s, events);
    LogFacts(t);
    WholeSlice(t.changes, 0, t.nextSequence);
    FilteredReplay(EpochStart(cfg, s, start, events), t.changes, categories, 0, t.nextSequence);
  }

  lemma {:induction false} EpochStartRegistered(cfg: Config, s: Space, events: seq<Event>, start: Records)
    requires Inv(s) && Summarised(s) && Registered(start) && PossibleRun(cfg, s, events)
    requires forall e :: e in events ==> RegistryDelete(e)
    ensures Registered(EpochStart(cfg, s, start, events))
    decreases |events|
  {
    hide Inv, Step, Registered, SummaryRight, RegisteredVersions;
    if events != [] {
      StepKeeps(cfg, s, events[0]);
      StepSummarises(cfg, s, events[0]);
      EpochStartRegistered(cfg, Step(cfg, s, events[0]), events[1..], if events[0].NewEpoch? then s.records else start);
    }
  }
}
