/**
  Sequence conservation: in every reachable state each number given out belongs to exactly one
  version or one conflict, and the summary of a category is what its records say.
 */
module Histories {
  import opened Wrappers
  import opened Schema
  import opened Merging
  import opened Replication
  import opened Runs

  /** Whatever a sequence number was spent on. */
  datatype Owner = OfVersion(v: VersionKey) | OfConflict(id: Id)

  ghost predicate Present(versions: Versions, conflicts: Conflicts, o: Owner) {
    match o
    case OfVersion(v) => v in versions
    case OfConflict(id) => id in conflicts
  }

  ghost function NumberOf(versions: Versions, conflicts: Conflicts, o: Owner): nat
    requires Present(versions, conflicts, o)
  {
    match o
    case OfVersion(v) => versions[v].record.sequence
    case OfConflict(id) => conflicts[id].clash.sequence
  }

  /** The list of owners, in order: nothing missing, nothing else. */
  ghost predicate Numbered(versions: Versions, conflicts: Conflicts, last: nat, owners: seq<Owner>) {
    && |owners| == last
    && (forall i :: 0 <= i < last ==>
          Present(versions, conflicts, owners[i]) && NumberOf(versions, conflicts, owners[i]) == i + 1)
    && (forall o :: Present(versions, conflicts, o) ==>
          1 <= NumberOf(versions, conflicts, o) <= last && owners[NumberOf(versions, conflicts, o) - 1] == o)
  }

  lemma NumberVersion(versions: Versions, conflicts: Conflicts, last: nat, owners: seq<Owner>, k: VersionKey,
                      v: Version)
    requires Numbered(versions, conflicts, last, owners) && k !in versions && v.record.sequence == last + 1
    ensures Numbered(versions[k := v], conflicts, last + 1, owners + [OfVersion(k)])
  {
    var v', c', owners' := versions[k := v], conflicts, owners + [OfVersion(k)];
    forall i | 0 <= i < last + 1 ensures Present(v', c', owners'[i]) && NumberOf(v', c', owners'[i]) == i + 1 {
      if i < last {
        assert Present(versions, conflicts, owners[i]) && NumberOf(versions, conflicts, owners[i]) == i + 1;
      }
    }
    forall o | Present(v', c', o)
      ensures 1 <= NumberOf(v', c', o) <= last + 1 && owners'[NumberOf(v', c', o) - 1] == o {
      assert o == OfVersion(k) || Present(versions, conflicts, o);
    }
  }

  lemma NumberConflict(versions: Versions, conflicts: Conflicts, last: nat, owners: seq<Owner>, id: Id, c: Conflict)
    requires Numbered(versions, conflicts, last, owners) && id !in conflicts && c.clash.sequence == last + 1
    ensures Numbered(versions, conflicts[id := c], last + 1, owners + [OfConflict(id)])
  {
    var v', c', owners' := versions, conflicts[id := c], owners + [OfConflict(id)];
    forall i | 0 <= i < last + 1 ensures Present(v', c', owners'[i]) && NumberOf(v', c', owners'[i]) == i + 1 {
      if i < last {
        assert Present(versions, conflicts, owners[i]) && NumberOf(versions, conflicts, owners[i]) == i + 1;
      }
    }
    forall o | Present(v', c', o)
      ensures 1 <= NumberOf(v', c', o) <= last + 1 && owners'[NumberOf(v', c', o) - 1] == o {
      assert o == OfConflict(id) || Present(versions, conflicts, o);
    }
  }

  /** Resolving a conflict does not renumber anything. */
  lemma NumberResolved(versions: Versions, conflicts: Conflicts, conflicts': Conflicts, last: nat, owners: seq<Owner>)
    requires Numbered(versions, conflicts, last, owners)
    requires forall id :: id in conflicts' <==> id in conflicts
    requires forall id :: id in conflicts ==> conflicts'[id].clash == conflicts[id].clash
    ensures Numbered(versions, conflicts', last, owners)
  {
    forall i | 0 <= i < last
      ensures Present(versions, conflicts', owners[i]) && NumberOf(versions, conflicts', owners[i]) == i + 1
    {
      assert Present(versions, conflicts, owners[i]) && NumberOf(versions, conflicts, owners[i]) == i + 1;
    }
    forall o | Present(versions, conflicts', o)
      ensures 1 <= NumberOf(versions, conflicts', o) <= last && owners[NumberOf(versions, conflicts', o) - 1] == o
    {
      assert Present(versions, conflicts, o);
    }
  }

  lemma MoveNumbers(cfg: Config, s: Space, m: Move, owners: seq<Owner>) returns (more: seq<Owner>)
    requires Inv(s) && Playable(s, m) && Numbered(s.versions, s.conflicts, s.nextSequence, owners)
    ensures var t := Play(cfg, s, m); Numbered(t.versions, t.conflicts, t.nextSequence, owners + more)
  {
    hide Numbered, Newest, Dense, Ordered, Described, DenseLog, ConflictsFiled, LedgerHonest, Retrievable, AnyLive;
    match m
    case AcceptMove(clientId, edit, payload, deleted, now) =>
      var r := NextRecord(cfg, s, clientId, edit, payload, deleted, now);
      var k := VersionKey(edit.key, r.revision);
      assert k !in s.versions;
      NumberVersion(s.versions, s.conflicts, s.nextSequence, owners, k,
                    Version(r, edit.baseRevision, edit.operationId));
      more := [OfVersion(k)];
    case ConflictMove(ctx, op, now, reason, fields, newId) =>
      var c := NewClash(cfg, s, ctx, op, now, reason, fields, newId);
      NumberConflict(s.versions, s.conflicts, s.nextSequence, owners, newId, Conflict(c, Unresolved));
      more := [OfConflict(newId)];
    case ResolveMove(id, revision, now) =>
      NumberResolved(s.versions, s.conflicts, MarkResolved(s, id, revision, now).conflicts, s.nextSequence, owners);
      more := [];
      assert owners + more == owners;
    case RememberMove(_, _, _, _) => more := []; assert owners + more == owners;
    case EpochMove => more := []; assert owners + more == owners;
    case FloorMove(_) => more := []; assert owners + more == owners;
  }

  lemma {:induction false} MovesNumber(cfg: Config, s: Space, moves: seq<Move>, owners: seq<Owner>)
      returns (more: seq<Owner>)
    requires Inv(s) && PlayableAll(cfg, s, moves) && Numbered(s.versions, s.conflicts, s.nextSequence, owners)
    ensures var t := PlayAll(cfg, s, moves); Numbered(t.versions, t.conflicts, t.nextSequence, owners + more)
    decreases |moves|
  {
    hide Numbered, Inv, Play, Playable;
    if moves == [] {
      more := [];
      assert owners + more == owners;
    } else {
      var first := MoveNumbers(cfg, s, moves[0], owners);
      MoveKeeps(cfg, s, moves[0]);
      var rest := MovesNumber(cfg, Play(cfg, s, moves[0]), moves[1..], owners + first);
      more := first + rest;
      assert owners + more == owners + first + rest;
    }
  }

  /** A run only appends owners: a number is never taken back or given to something else. */
  lemma {:induction false} RunNumbers(cfg: Config, s: Space, events: seq<Event>, owners: seq<Owner>)
      returns (more: seq<Owner>)
    requires Inv(s) && PossibleRun(cfg, s, events) && Numbered(s.versions, s.conflicts, s.nextSequence, owners)
    ensures var t := Run(cfg, s, events); Numbered(t.versions, t.conflicts, t.nextSequence, owners + more)
    decreases |events|
  {
    hide Numbered, Step, Possible, Newest, Dense, Filed, Ordered, Described, DenseLog, ConflictsFiled, LedgerHonest;
    if events == [] {
      more := [];
      assert owners + more == owners;
    } else {
      var moves := EventIsMoves(cfg, s, events[0]);
      var first := MovesNumber(cfg, s, moves, owners);
      StepKeeps(cfg, s, events[0]);
      var rest := RunNumbers(cfg, Step(cfg, s, events[0]), events[1..], owners + first);
      more := first + rest;
      assert owners + more == owners + first + rest;
    }
  }

  /**
    In every reachable state each number from 1 to the counter has exactly one owner, and owners
    have no other numbers.
   */
  lemma SequencesAreConserved(cfg: Config, s: Space) returns (owners: seq<Owner>)
    requires Reachable(cfg, s)
    ensures Numbered(s.versions, s.conflicts, s.nextSequence, owners)
  {
    hide Step, Possible, Inv, Numbered, PossibleRun, Run;
    var scope: Scope, restoreEpoch: nat, events: seq<Event> :|
      && PossibleRun(cfg, NewSpace(scope, restoreEpoch), events)
      && Run(cfg, NewSpace(scope, restoreEpoch), events) == s;
    NewSpaceInv(scope, restoreEpoch);
    NothingNumbered(scope, restoreEpoch);
    var more := RunNumbers(cfg, NewSpace(scope, restoreEpoch), events, []);
    owners := [] + more;
  }

  lemma NothingNumbered(scope: Scope, restoreEpoch: nat)
    ensures var s := NewSpace(scope, restoreEpoch); Numbered(s.versions, s.conflicts, s.nextSequence, [])
  {
  }

  // ---------------------------------------------------------------- category summaries

  /** Every record sits in the category its type is registered under. */
  ghost predicate Registered(records: Records) {
    forall key :: key in records ==> records[key].category == CategoryOf(key.entityType)
  }

  ghost predicate RegisteredVersions(versions: Versions) {
    forall v :: v in versions ==> versions[v].record.category == CategoryOf(v.key.entityType)
  }

  type Summaries = map<Category, CategoryState>

  /** The summary of a category, recomputed from the records. */
  ghost predicate SummaryRight(records: Records, summaries: Summaries, c: Category) {
    if c in summaries then
      && summaries[c].present == AnyLive(records, c)
      && (exists key ::
          key in records && records[key].category == c && records[key].sequence == summaries[c].lastSequence)
      && (forall key :: key in records && records[key].category == c ==>
          records[key].sequence <= summaries[c].lastSequence)
    else
      forall key :: key in records ==> records[key].category != c
  }

  ghost predicate SummariesRight(records: Records, summaries: Summaries) {
    forall c :: SummaryRight(records, summaries, c)
  }

  ghost predicate Summarised(s: Space) {
    Registered(s.records) && RegisteredVersions(s.versions) && SummariesRight(s.records, s.categories)
  }

  ghost predicate FilesByRegistry(allowed: map<Key, Category>) {
    forall key :: key in allowed ==> allowed[key] == CategoryOf(key.entityType)
  }

  lemma OtherCategoryKept(records: Records, r: Record, c: Category)
    requires r.category != c && (r.key in records ==> records[r.key].category == r.category)
    ensures AnyLive(records[r.key := r], c) == AnyLive(records, c)
  {
    var records' := records[r.key := r];
    if AnyLive(records, c) {
      var key :| key in records && records[key].category == c && !records[key].deleted;
      assert key in records' && records'[key] == records[key];
    }
    if AnyLive(records', c) {
      var key :| key in records' && records'[key].category == c && !records'[key].deleted;
      assert key in records && records'[key] == records[key];
    }
  }

  lemma SummaryAfter(records: Records, summaries: Summaries, r: Record, summary: CategoryState, c: Category)
    requires SummaryRight(records, summaries, c)
    requires r.key in records ==> records[r.key].category == r.category
    requires forall key :: key in records ==> records[key].sequence < r.sequence
    requires summary.present == AnyLive(records[r.key := r], r.category) && summary.lastSequence == r.sequence
    ensures SummaryRight(records[r.key := r], summaries[r.category := summary], c)
  {
    hide AnyLive;
    if c == r.category {
      assert records[r.key := r][r.key].category == c;
    } else {
      OtherSummaryAfter(records, summaries, r, summary, c);
    }
  }

  lemma OtherSummaryAfter(records: Records, summaries: Summaries, r: Record, summary: CategoryState, c: Category)
    requires SummaryRight(records, summaries, c) && c != r.category
    requires r.key in records ==> records[r.key].category == r.category
    ensures SummaryRight(records[r.key := r], summaries[r.category := summary], c)
  {
    var records', summaries' := records[r.key := r], summaries[r.category := summary];
    OtherCategoryKept(records, r, c);
    hide AnyLive;
    forall k ensures k in records' && records'[k].category == c <==> k in records && records[k].category == c
             ensures k in records' && records'[k].category == c ==> records'[k] == records[k] {}
    if c in summaries {
      var key :| key in records && records[key].category == c && records[key].sequence == summaries[c].lastSequence;
      assert key in records' && records'[key] == records[key];
      assert summaries'[c] == summaries[c];
    }
  }

  lemma RecordsAreOld(s: Space)
    requires Newest(s.records, s.versions) && Filed(s.records, s.versions, s.nextSequence)
    ensures forall key :: key in s.records ==> s.records[key].sequence <= s.nextSequence
  {
    forall key | key in s.records ensures s.records[key].sequence <= s.nextSequence {
      assert VersionKey(key, s.records[key].revision) in s.versions;
    }
  }

  lemma AcceptSummarises(cfg: Config, s: Space, clientId: Id, edit: Edit, payload: Option<Payload>, deleted: bool,
                         now: int)
    requires Newest(s.records, s.versions) && Filed(s.records, s.versions, s.nextSequence) && Summarised(s)
    requires edit.category == CategoryOf(edit.key.entityType)
    ensures Summarised(Accept(cfg, s, clientId, edit, payload, deleted, now))
  {
    RecordsAreOld(s);
    var t := Accept(cfg, s, clientId, edit, payload, deleted, now);
    var r := NextRecord(cfg, s, clientId, edit, payload, deleted, now);
    assert !r.deleted ==> AnyLive(t.records, r.category) by {
      assert t.records[edit.key] == r;
    }
    hide AnyLive, SummaryRight, Newest, Filed;
    forall c ensures SummaryRight(t.records, t.categories, c) {
      SummaryAfter(s.records, s.categories, r, CategoryAfter(s, t.records, r), c);
    }
  }

  lemma MoveSummarises(cfg: Config, s: Space, m: Move)
    requires Inv(s) && Playable(s, m) && Summarised(s)
    requires m.AcceptMove? ==> m.edit.category == CategoryOf(m.edit.key.entityType)
    ensures Summarised(Play(cfg, s, m))
  {
    hide Inv, Newest, Filed, Retrievable, Accept, Summarised, AnyLive;
    if m.AcceptMove? {
      InvParts(s);
      AcceptSummarises(cfg, s, m.clientId, m.edit, m.payload, m.deleted, m.now);
    } else {
      SameRowsSummarise(s, Play(cfg, s, m));
    }
  }

  lemma SameRowsSummarise(s: Space, t: Space)
    requires Summarised(s) && t.records == s.records && t.versions == s.versions && t.categories == s.categories
    ensures Summarised(t)
  {
  }

  lemma {:induction false} MovesSummarise(cfg: Config, s: Space, moves: seq<Move>, allowed: map<Key, Category>)
    requires Inv(s) && PlayableAll(cfg, s, moves) && Summarised(s)
    requires OnlyAccepts(moves, allowed) && FilesByRegistry(allowed)
    ensures Summarised(PlayAll(cfg, s, moves))
    decreases |moves|
  {
    hide Inv, Grows, Playable, Play, Summarised;
    if moves != [] {
      MoveKeeps(cfg, s, moves[0]);
      MoveSummarises(cfg, s, moves[0]);
      MovesSummarise(cfg, Play(cfg, s, moves[0]), moves[1..], allowed);
    }
  }

  /** A delete names its category freely: it is the one operation the schema check does not see. */
  ghost predicate RegistryDelete(e: Event) {
    e.Push? && e.op.kind.Delete? ==> e.op.category == CategoryOf(e.op.key.entityType)
  }

  lemma StepSummarises(cfg: Config, s: Space, e: Event)
    requires Inv(s) && Possible(s, e) && RegistryDelete(e) && Summarised(s)
    ensures Summarised(Step(cfg, s, e))
  {
    hide Inv, Summarised, Effect, TombstoneAll, Accept, NextRecord;
    if FilesByRegistry(Touched(s, e)) {
      assert Newest(s.records, s.versions) && Filed(s.records, s.versions, s.nextSequence) by { InvParts(s); }
      var moves := EventIsMoves(cfg, s, e);
      MovesSummarise(cfg, s, moves, Touched(s, e));
    } else {
      assert Registered(s.records) by { SummarisedParts(s); }
      assert Step(cfg, s, e) == s;
    }
  }

  lemma InvParts(s: Space)
    requires Inv(s)
    ensures Newest(s.records, s.versions) && Filed(s.records, s.versions, s.nextSequence)
  {
  }

  lemma SummarisedParts(s: Space)
    requires Summarised(s)
    ensures Registered(s.records)
  {
  }

  /** As long as deletes name the registered category, every summary is right in every state of a run. */
  lemma {:induction false} RunSummarises(cfg: Config, s: Space, events: seq<Event>)
    requires Inv(s) && Summarised(s) && PossibleRun(cfg, s, events)
    requires forall e :: e in events ==> RegistryDelete(e)
    ensures Summarised(Run(cfg, s, events))
    decreases |events|
  {
    hide Inv, Summarised, Step;
    if events != [] {
      StepKeeps(cfg, s, events[0]);
      StepSummarises(cfg, s, events[0]);
      RunSummarises(cfg, Step(cfg, s, events[0]), events[1..]);
    }
  }
}
