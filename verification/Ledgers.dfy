/**
  Exactly-once operations, and what can never happen to what they recorded: replays are without
  effect, everything committed can be retrieved, and a tombstone is never revived by accident.
 */
module Ledgers {
  import opened Wrappers
  import opened Schema
  import opened Merging
  import opened Replication
  import opened Runs

  // ---------------------------------------------------------------- replays

  predicate Recorded(s: Space, ctx: Context, op: Operation) {
    LedgerKey(ctx.clientId, op.operationId) in s.operations
  }

  /** What sending an operation again answers, when its identifier is recorded. */
  function ReplayAnswer(cfg: Config, s: Space, ctx: Context, op: Operation,
                        entry: LedgerEntry): Result<Response, Error> {
    if Refusal(cfg, op).Some? then Ok(Rejected(Refusal(cfg, op).value))
    else if !EpochAllows(s, ctx) then Err(RestoreEpochChanged)
    else if entry.request == op then Ok(Duplicate(entry.outcome))
    else Err(OperationReused)
  }

  lemma ReplayAnswers(cfg: Config, s: Space, ctx: Context, op: Operation, now: int, newId: Id)
    requires Recorded(s, ctx, op)
    ensures ApplyOperation(cfg, s, ctx, op, now, newId) ==
            Reply(s, ReplayAnswer(cfg, s, ctx, op, s.operations[LedgerKey(ctx.clientId, op.operationId)]))
  {
    hide Effect;
  }

  /**
    Once an operation has committed, and whatever happened since, whatever the client sends under its
    identifier changes nothing: the same operation is answered with the stored outcome, another one is
    refused, and so is one that the schema refuses or that expects another epoch.
   */
  lemma ReplaysAreAnswered(cfg: Config, s: Space, ctx: Context, op: Operation, now: int, newId: Id, events: seq<Event>,
                           ctx': Context, again: Operation, now': int, newId': Id)
    requires Inv(s) && Possible(s, Push(ctx, op, now, newId))
    requires var reply := ApplyOperation(cfg, s, ctx, op, now, newId);
             reply.answer.Ok? && reply.answer.value.Committed? && PossibleRun(cfg, reply.space, events)
    requires ctx'.clientId == ctx.clientId && again.operationId == op.operationId
    ensures var reply := ApplyOperation(cfg, s, ctx, op, now, newId);
            var t := Run(cfg, reply.space, events);
            ApplyOperation(cfg, t, ctx', again, now', newId') ==
            Reply(t, ReplayAnswer(cfg, t, ctx', again, LedgerEntry(op, reply.answer.value.outcome, now)))
  {
    var reply := ApplyOperation(cfg, s, ctx, op, now, newId);
    CommitRemembers(cfg, s, ctx, op, now, newId);
    StepIsPush(cfg, s, ctx, op, now, newId);
    hide ApplyOperation, ReplayAnswer, Inv, Run, PossibleRun, Step, Possible;
    StepKeeps(cfg, s, Push(ctx, op, now, newId));
    RunKeeps(cfg, reply.space, events);
    var t := Run(cfg, reply.space, events);
    assert LedgerGrows(reply.space.operations, t.operations);
    ReplayAnswers(cfg, t, ctx', again, now', newId');
  }

  lemma StepIsPush(cfg: Config, s: Space, ctx: Context, op: Operation, now: int, newId: Id)
    requires Possible(s, Push(ctx, op, now, newId))
    ensures Step(cfg, s, Push(ctx, op, now, newId)) == ApplyOperation(cfg, s, ctx, op, now, newId).space
  {
  }

  lemma CommitRemembers(cfg: Config, s: Space, ctx: Context, op: Operation, now: int, newId: Id)
    requires ApplyOperation(cfg, s, ctx, op, now, newId).answer.Ok?
             && ApplyOperation(cfg, s, ctx, op, now, newId).answer.value.Committed?
    ensures var reply := ApplyOperation(cfg, s, ctx, op, now, newId);
            var k := LedgerKey(ctx.clientId, op.operationId);
            k in reply.space.operations && reply.space.operations[k] == LedgerEntry(op, reply.answer.value.outcome, now)
  {
    hide Effect;
  }

  ghost predicate IsReplay(s: Space, e: Event) {
    e.Push? && Recorded(s, e.ctx, e.op)
  }

  /** The run without the pushes whose client and operation identifier are already in the ledger. */
  ghost function WithoutReplays(cfg: Config, s: Space, events: seq<Event>): seq<Event>
    requires PossibleRun(cfg, s, events)
    decreases |events|
  {
    if events == [] then []
    else
      var rest := WithoutReplays(cfg, Step(cfg, s, events[0]), events[1..]);
      if IsReplay(s, events[0]) then rest else [events[0]] + rest
  }

  /** Removing the replays from any run leaves its final state as it was. */
  lemma {:induction false} ReplaysHaveNoEffect(cfg: Config, s: Space, events: seq<Event>)
    requires PossibleRun(cfg, s, events)
    ensures PossibleRun(cfg, s, WithoutReplays(cfg, s, events))
    ensures Run(cfg, s, WithoutReplays(cfg, s, events)) == Run(cfg, s, events)
    decreases |events|
  {
    hide Effect, TombstoneAll;
    if events != [] {
      var t := Step(cfg, s, events[0]);
      ReplaysHaveNoEffect(cfg, t, events[1..]);
      if IsReplay(s, events[0]) {
        assert t == s;
      } else {
        assert WithoutReplays(cfg, s, events)[1..] == WithoutReplays(cfg, t, events[1..]);
      }
    }
  }

  // ---------------------------------------------------------------- batches

  /** One operation of a pushed batch with the clock reading and identifier used for it. */
  datatype Item = Item(op: Operation, now: int, newId: Id)

  /** A batch applied one transaction at a time; an error ends it after `done` operations. */
  datatype BatchReply = BatchReply(space: Space, done: nat, answer: Result<seq<Response>, Error>)

  function Prepend(first: seq<Response>, rest: Result<seq<Response>, Error>): Result<seq<Response>, Error> {
    match rest
    case Err(e) => Err(e)
    case Ok(responses) => Ok(first + responses)
  }

  function PushBatch(cfg: Config, s: Space, ctx: Context, items: seq<Item>): (r: BatchReply)
    ensures r.done <= |items| && (r.answer.Ok? ==> r.done == |items|)
    decreases |items|
  {
    if items == [] then BatchReply(s, 0, Ok([]))
    else
      var reply := ApplyOperation(cfg, s, ctx, items[0].op, items[0].now, items[0].newId);
      match reply.answer
      case Err(e) => BatchReply(reply.space, 0, Err(e))
      case Ok(response) =>
        var rest := PushBatch(cfg, reply.space, ctx, items[1..]);
        BatchReply(rest.space, rest.done + 1, Prepend([response], rest.answer))
  }

  /** Nothing is left to do for an operation: it is in the ledger, or the schema refuses it. */
  predicate Settled(cfg: Config, s: Space, ctx: Context, op: Operation) {
    Refusal(cfg, op).Some?
      || (Recorded(s, ctx, op) && s.operations[LedgerKey(ctx.clientId, op.operationId)].request == op)
  }

  lemma SettledHasNoEffect(cfg: Config, s: Space, ctx: Context, op: Operation, now: int, newId: Id)
    requires Settled(cfg, s, ctx, op)
    ensures ApplyOperation(cfg, s, ctx, op, now, newId).space == s
    ensures EpochAllows(s, ctx) ==> ApplyOperation(cfg, s, ctx, op, now, newId).answer.Ok?
  {
  }

  lemma AnsweredIsSettled(cfg: Config, s: Space, ctx: Context, op: Operation, now: int, newId: Id)
    requires ApplyOperation(cfg, s, ctx, op, now, newId).answer.Ok?
    ensures Settled(cfg, ApplyOperation(cfg, s, ctx, op, now, newId).space, ctx, op)
  {
    hide Effect;
  }

  /** The effect of an operation does not reach the ledger. */
  lemma EffectKeepsLedger(cfg: Config, s: Space, ctx: Context, op: Operation, now: int, newId: Id)
    requires op.WellFormed()
    ensures Effect(cfg, s, ctx, op, now, newId).Ok? ==>
              Effect(cfg, s, ctx, op, now, newId).value.space.operations == s.operations
  {
    hide Merged, Merging.Conflicting, AnyLive, CategoryAfter, NextRecord, NewClash;
  }

  lemma LedgerOnlyGrows(cfg: Config, s: Space, ctx: Context, op: Operation, now: int, newId: Id)
    ensures LedgerGrows(s.operations, ApplyOperation(cfg, s, ctx, op, now, newId).space.operations)
  {
    hide Effect;
    if Refusal(cfg, op).None? {
      EffectKeepsLedger(cfg, s, ctx, op, now, newId);
    }
  }

  lemma {:induction false} BatchSettles(cfg: Config, s: Space, ctx: Context, items: seq<Item>)
    ensures var r := PushBatch(cfg, s, ctx, items);
            && LedgerGrows(s.operations, r.space.operations)
            && (forall i :: 0 <= i < r.done ==> Settled(cfg, r.space, ctx, items[i].op))
    decreases |items|
  {
    hide ApplyOperation, Refusal;
    if items != [] {
      var op := items[0].op;
      var reply := ApplyOperation(cfg, s, ctx, op, items[0].now, items[0].newId);
      LedgerOnlyGrows(cfg, s, ctx, op, items[0].now, items[0].newId);
      if reply.answer.Ok? {
        AnsweredIsSettled(cfg, s, ctx, op, items[0].now, items[0].newId);
        BatchSettles(cfg, reply.space, ctx, items[1..]);
        var r := PushBatch(cfg, s, ctx, items);
        forall i | 0 <= i < r.done ensures Settled(cfg, r.space, ctx, items[i].op) {
          assert i > 0 ==> items[i] == items[1..][i - 1];
        }
      }
    }
  }

  /** Settled operations in front of a batch make no difference to what it does. */
  lemma {:induction false} SettledFirst(cfg: Config, s: Space, ctx: Context, first: seq<Item>, rest: seq<Item>)
    requires forall i :: 0 <= i < |first| ==> Settled(cfg, s, ctx, first[i].op)
    ensures PushBatch(cfg, s, ctx, first + rest).space == PushBatch(cfg, s, ctx, rest).space
    decreases |first|
  {
    hide ApplyOperation, Settled;
    if first == [] {
      assert first + rest == rest;
    } else {
      SettledHasNoEffect(cfg, s, ctx, first[0].op, first[0].now, first[0].newId);
      SettledFirst(cfg, s, ctx, first[1..], rest);
      assert (first + rest)[1..] == first[1..] + rest;
      if !EpochAllows(s, ctx) {
        OtherEpochBatch(cfg, s, ctx, rest);
      }
    }
  }

  /** A batch that expects another epoch does nothing. */
  lemma {:induction false} OtherEpochBatch(cfg: Config, s: Space, ctx: Context, items: seq<Item>)
    requires !EpochAllows(s, ctx)
    ensures PushBatch(cfg, s, ctx, items).space == s
    decreases |items|
  {
    hide Refusal, Effect;
    if items != [] {
      OtherEpochBatch(cfg, s, ctx, items[1..]);
    }
  }

  /**
    Sending a batch again after any other events, whether it was complete or cut short by an error, and
    with anything else behind it, has the effect of what comes after the operations that were answered
    the first time, and no other.
   */
  lemma ResentBatchHasNoEffect(cfg: Config, s: Space, ctx: Context, items: seq<Item>, later: Space, again: seq<Item>)
    requires var r := PushBatch(cfg, s, ctx, items);
             && Grows(r.space, later) && |again| >= r.done
             && forall i :: 0 <= i < r.done ==> again[i].op == items[i].op
    ensures var r := PushBatch(cfg, s, ctx, items);
            PushBatch(cfg, later, ctx, again).space == PushBatch(cfg, later, ctx, again[r.done..]).space
  {
    hide PushBatch, Refusal;
    BatchSettles(cfg, s, ctx, items);
    var r := PushBatch(cfg, s, ctx, items);
    var first := again[..r.done];
    forall i | 0 <= i < |first| ensures Settled(cfg, later, ctx, first[i].op) {
      assert Settled(cfg, r.space, ctx, items[i].op);
    }
    SettledFirst(cfg, later, ctx, first, again[r.done..]);
    assert first + again[r.done..] == again;
  }

  // ---------------------------------------------------------------- nothing is lost

  /**
    Whatever was committed at some point of a run can be retrieved at every later point: the same
    ledger entry, and the version that holds the edit or the conflict that keeps it.
   */
  lemma CommittedStaysRetrievable(cfg: Config, s: Space, events: seq<Event>, k: LedgerKey)
    requires Inv(s) && PossibleRun(cfg, s, events) && k in s.operations
    ensures var t := Run(cfg, s, events);
            && k in t.operations && t.operations[k] == s.operations[k]
            && Retrievable(t.versions, t.conflicts, k.clientId, s.operations[k].request, s.operations[k].outcome)
  {
    hide PossibleRun, Run, Retrievable, Newest, Dense, Filed, Ordered, Described, DenseLog, ConflictsFiled;
    RunKeeps(cfg, s, events);
  }

  /** A conflict is settled at most once, and then names a version of its entity. */
  lemma ResolvedOnce(cfg: Config, s: Space, events: seq<Event>, id: Id)
    requires Inv(s) && PossibleRun(cfg, s, events) && id in s.conflicts
    ensures var t := Run(cfg, s, events);
            && id in t.conflicts && t.conflicts[id].clash == s.conflicts[id].clash
            && (s.conflicts[id].status.Resolved? ==> t.conflicts[id] == s.conflicts[id])
            && (t.conflicts[id].status.Resolved? ==>
                  VersionKey(t.conflicts[id].clash.key, t.conflicts[id].status.revision) in t.versions)
  {
    hide PossibleRun, Run, Newest, Dense, Filed, Ordered, Described, DenseLog, LedgerHonest;
    RunKeeps(cfg, s, events);
  }

  // ---------------------------------------------------------------- what an event leaves alone

  /** The record and the versions of one entity. */
  ghost predicate SameEntity(s: Space, t: Space, key: Key) {
    && Current(s, key) == Current(t, key)
    && (forall revision :: VersionAt(s, key, revision) == VersionAt(t, key, revision))
  }

  lemma MoveLeavesAlone(cfg: Config, s: Space, m: Move, key: Key)
    requires Playable(s, m) && (m.AcceptMove? ==> m.edit.key != key)
    ensures SameEntity(s, Play(cfg, s, m), key)
  {
    hide Retrievable, AnyLive;
  }

  lemma {:induction false} MovesLeaveAlone(cfg: Config, s: Space, moves: seq<Move>, allowed: map<Key, Category>,
                                           key: Key)
    requires PlayableAll(cfg, s, moves) && OnlyAccepts(moves, allowed) && key !in allowed
    ensures SameEntity(s, PlayAll(cfg, s, moves), key)
    decreases |moves|
  {
    hide Playable, Play;
    if moves != [] {
      MoveLeavesAlone(cfg, s, moves[0], key);
      MovesLeaveAlone(cfg, Play(cfg, s, moves[0]), moves[1..], allowed, key);
    }
  }

  lemma StepLeavesAlone(cfg: Config, s: Space, e: Event, key: Key)
    requires Inv(s) && Possible(s, e) && key !in Touched(s, e)
    ensures SameEntity(s, Step(cfg, s, e), key)
  {
    hide Step, SameEntity, Touched, Dense, Ordered, Described, DenseLog, ConflictsFiled, LedgerHonest;
    var moves := EventIsMoves(cfg, s, e);
    MovesLeaveAlone(cfg, s, moves, Touched(s, e), key);
  }

  // ---------------------------------------------------------------- tombstones

  predicate IsTombstone(s: Space, key: Key) {
    key in s.records && s.records[key].deleted
  }

  /** An event that names the tombstone's own revision as its base. */
  ghost predicate BasedOn(s: Space, e: Event, key: Key, revision: nat) {
    match e
    case Push(_, op, _, _) => op.key == key && !op.kind.Delete? && op.baseRevision == Some(revision)
    case Resolve(_, request, _, _) =>
      && request.conflictId in s.conflicts && s.conflicts[request.conflictId].clash.key == key
      && request.baseRevision == revision
    case _ => false
  }

  lemma PushRevives(cfg: Config, s: Space, ctx: Context, op: Operation, now: int, newId: Id)
    requires IsTombstone(s, op.key) && s.records[op.key].revision >= 1 && !PolicyOf(op.key.entityType).LastWriterWins?
    requires !IsTombstone(ApplyOperation(cfg, s, ctx, op, now, newId).space, op.key)
    ensures !op.kind.Delete? && op.baseRevision == Some(s.records[op.key].revision)
  {
    hide AnyLive, CategoryAfter, Merged, Merging.Conflicting, NewClash;
  }

  lemma ResolutionRevives(cfg: Config, s: Space, ctx: Context, request: ResolveRequest, now: int, operationId: Id)
    requires ResolveForAccount(cfg, s, ctx, request, now, operationId).space != s
    ensures request.conflictId in s.conflicts && Current(s, s.conflicts[request.conflictId].clash.key).Some?
    ensures request.baseRevision == Current(s, s.conflicts[request.conflictId].clash.key).value.revision
  {
    hide Accept, NextRecord;
  }

  lemma {:induction false} TombstonesStay(cfg: Config, s: Space, ctx: Context, rows: seq<Key>, stamps: seq<Stamp>,
                                          key: Key)
    requires |stamps| == |rows| && (forall k :: k in rows ==> k in s.records) && IsTombstone(s, key)
    ensures IsTombstone(TombstoneAll(cfg, s, ctx, rows, stamps), key)
    decreases |rows|
  {
    hide AnyLive, CategoryAfter;
    if rows != [] {
      TombstonesStay(cfg, Tombstone(cfg, s, ctx, rows[0], stamps[0]), ctx, rows[1..], stamps[1..], key);
    }
  }

  /** Outside last-writer-wins types a tombstone becomes live only through an event based on it. */
  lemma NoSilentRevival(cfg: Config, s: Space, e: Event, key: Key)
    requires Inv(s) && Possible(s, e) && IsTombstone(s, key) && !PolicyOf(key.entityType).LastWriterWins?
    requires !IsTombstone(Step(cfg, s, e), key)
    ensures BasedOn(s, e, key, s.records[key].revision)
  {
    hide Filed, Ordered, Described, DenseLog, ConflictsFiled, LedgerHonest, ApplyOperation, ResolveForAccount,
         TombstoneAll;
    if key !in Touched(s, e) {
      StepLeavesAlone(cfg, s, e, key);
      assert false;
    }
    match e
    case Push(ctx, op, now, newId) =>
      RecordsAreNumbered(s, key);
      PushRevives(cfg, s, ctx, op, now, newId);
    case Resolve(ctx, request, now, operationId) =>
      ResolutionRevives(cfg, s, ctx, request, now, operationId);
    case FirstSync(ctx, plan, _, _, rows, stamps) =>
      TombstonesStay(cfg, s, ctx, rows, stamps, key);
    case _ =>
  }

  lemma RecordsAreNumbered(s: Space, key: Key)
    requires Inv(s) && key in s.records
    ensures s.records[key].revision >= 1
  {
    hide Filed, Ordered, Described, DenseLog, ConflictsFiled, LedgerHonest;
  }

  /**
    Exactly which fresh upserts revive a tombstone: those based on its revision, and, for
    last-writer-wins types, all of them.
   */
  lemma RevivedExactly(cfg: Config, s: Space, ctx: Context, op: Operation, now: int, newId: Id)
    requires Inv(s) && IsTombstone(s, op.key) && op.kind.Upsert?
    requires Refusal(cfg, op).None? && EpochAllows(s, ctx) && !Recorded(s, ctx, op)
    ensures !IsTombstone(ApplyOperation(cfg, s, ctx, op, now, newId).space, op.key) <==>
            op.Base() == s.records[op.key].revision || PolicyOf(op.key.entityType).LastWriterWins?
  {
    hide Dense, Filed, Ordered, Described, DenseLog, ConflictsFiled, LedgerHonest, AnyLive, Merged, Merging.Conflicting;
  }
}
