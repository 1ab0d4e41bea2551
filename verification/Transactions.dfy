/**
  The promise-chain lock around transactions, as a state machine over its steps: arrivals append to
  the chain of their key, a transaction starts on a copy of the committed state once the promise it
  queued behind has resolved, and finishing commits or discards the copy and releases the lock.
 */
module Transactions {
  import opened Wrappers

  type Name = string

  /** What a callback does to its working copy: a new state, or nothing because it threw. */
  type Callback<!S> = S -> Option<S>

  datatype Phase<S> = Waiting | Running(working: S) | Done

  datatype Tx<!S> = Tx(key: Name, callback: Callback<S>, previous: Option<nat>, phase: Phase<S>)

  /** Transactions in order of arrival, the tail of each key's chain, and the committed states. */
  datatype System<!S> = System(spaces: map<Name, S>, txs: seq<Tx<S>>, locks: map<Name, nat>)

  datatype Action<!S> = Arrive(key: Name, callback: Callback<S>) | Start(id: nat) | Finish(id: nat)

  /** The promise of a transaction resolves when its predecessor's has and it has been released. */
  ghost predicate Resolved<S>(txs: seq<Tx<S>>, id: nat)
    decreases id
  {
    && id < |txs| && txs[id].phase.Done?
    && (txs[id].previous.Some? ==> txs[id].previous.value < id && Resolved(txs, txs[id].previous.value))
  }

  ghost predicate Enabled<S>(y: System<S>, a: Action<S>) {
    match a
    case Arrive(_, _) => true
    case Start(id) =>
      && id < |y.txs| && y.txs[id].phase.Waiting?
      && (y.txs[id].previous.Some? ==> Resolved(y.txs, y.txs[id].previous.value))
    case Finish(id) => id < |y.txs| && y.txs[id].phase.Running?
  }

  /** Release: the chain entry disappears when nothing queued behind it. */
  ghost function Released<S>(locks: map<Name, nat>, key: Name, id: nat): map<Name, nat> {
    if key in locks && locks[key] == id then locks - {key} else locks
  }

  ghost function Next<S>(y: System<S>, a: Action<S>): System<S>
    requires Enabled(y, a)
  {
    match a
    case Arrive(key, callback) =>
      var previous := if key in y.locks then Some(y.locks[key]) else None;
      y.(txs := y.txs + [Tx(key, callback, previous, Waiting)], locks := y.locks[key := |y.txs|])
    case Start(id) =>
      var tx := y.txs[id];
      if tx.key in y.spaces then
        y.(txs := y.txs[id := tx.(phase := Running(y.spaces[tx.key]))])
      else
        y.(txs := y.txs[id := tx.(phase := Done)], locks := Released<S>(y.locks, tx.key, id))
    case Finish(id) =>
      var tx := y.txs[id];
      var result := tx.callback(tx.phase.working);
      System(if result.Some? then y.spaces[tx.key := result.value] else y.spaces,
             y.txs[id := tx.(phase := Done)], Released<S>(y.locks, tx.key, id))
  }

  // ---------------------------------------------------------------- what every step keeps

  /** A transaction queued directly behind the last one of its key, unless all of those were done. */
  ghost predicate Chained<S>(txs: seq<Tx<S>>) {
    forall t :: 0 <= t < |txs| ==>
      match txs[t].previous
      case None => forall u :: 0 <= u < t && txs[u].key == txs[t].key ==> txs[u].phase.Done?
      case Some(p) => p < t && txs[p].key == txs[t].key && forall u :: p < u < t ==> txs[u].key != txs[t].key
  }

  /** Mutual exclusion and order of service: whatever came before a started transaction is done. */
  ghost predicate InOrder<S>(txs: seq<Tx<S>>) {
    forall t, u :: 0 <= t < u < |txs| && txs[t].key == txs[u].key && !txs[u].phase.Waiting? ==> txs[t].phase.Done?
  }

  /** The lock entry of a key is its last transaction, and exists exactly while one is not done. */
  ghost predicate LocksRight<S>(y: System<S>) {
    && (forall key :: key in y.locks ==>
          && y.locks[key] < |y.txs| && y.txs[y.locks[key]].key == key && !y.txs[y.locks[key]].phase.Done?
          && forall u :: y.locks[key] < u < |y.txs| ==> y.txs[u].key != key)
    && (forall t :: 0 <= t < |y.txs| && !y.txs[t].phase.Done? ==> y.txs[t].key in y.locks)
  }

  function Settle<S>(state: Option<S>, callback: Callback<S>): Option<S> {
    if state.None? then None
    else if callback(state.value).Some? then callback(state.value) else state
  }

  function At<S>(spaces: map<Name, S>, key: Name): Option<S> {
    if key in spaces then Some(spaces[key]) else None
  }

  /** The sequential composition, in order of arrival, of the finished callbacks of a key. */
  function Sequential<S>(initial: map<Name, S>, txs: seq<Tx<S>>, key: Name): Option<S> {
    if txs == [] then At(initial, key)
    else
      var n := |txs| - 1;
      var before := Sequential(initial, txs[..n], key);
      if txs[n].key == key && txs[n].phase.Done? then Settle(before, txs[n].callback) else before
  }

  ghost predicate Serial<S>(initial: map<Name, S>, y: System<S>) {
    && (forall key :: At(y.spaces, key) == Sequential(initial, y.txs, key))
    && (forall t :: 0 <= t < |y.txs| && y.txs[t].phase.Running? ==>
        At(y.spaces, y.txs[t].key) == Some(y.txs[t].phase.working))
  }

  ghost predicate Inv<S>(initial: map<Name, S>, y: System<S>) {
    Chained(y.txs) && InOrder(y.txs) && LocksRight(y) && Serial(initial, y)
  }

  lemma {:induction false} ResolvedMeansDone<S>(txs: seq<Tx<S>>, id: nat, u: nat)
    requires Chained(txs) && Resolved(txs, id) && u <= id && txs[u].key == txs[id].key
    ensures txs[u].phase.Done?
    decreases id
  {
    if u < id && txs[id].previous.Some? {
      ResolvedMeansDone(txs, txs[id].previous.value, u);
    }
  }

  /**
    In a chain whose services are in order, the promise a transaction waits for has resolved exactly
    when its direct predecessor has been released: the two lock variants admit the same steps.
   */
  lemma {:induction false} ReleasedMeansResolved<S>(txs: seq<Tx<S>>, id: nat)
    requires Chained(txs) && InOrder(txs) && id < |txs|
    ensures txs[id].phase.Done? <==> Resolved(txs, id)
    decreases id
  {
    if txs[id].phase.Done? && txs[id].previous.Some? {
      ReleasedMeansResolved(txs, txs[id].previous.value);
    }
  }

  /** Finishing a transaction none of whose successors is done composes its callback at the end. */
  lemma {:induction false} SequentialFinish<S>(initial: map<Name, S>, txs: seq<Tx<S>>, id: nat, key: Name)
    requires id < |txs| && !txs[id].phase.Done?
    requires forall u :: id < u < |txs| && txs[u].key == txs[id].key ==> !txs[u].phase.Done?
    ensures Sequential(initial, txs[id := txs[id].(phase := Done)], key) ==
            if key == txs[id].key then Settle(Sequential(initial, txs, key), txs[id].callback)
               else Sequential(initial, txs, key)
    decreases |txs|
  {
    var n := |txs| - 1;
    var txs' := txs[id := txs[id].(phase := Done)];
    if id == n {
      assert txs'[..n] == txs[..n];
    } else {
      assert txs'[..n] == txs[..n][id := txs[id].(phase := Done)];
      SequentialFinish(initial, txs[..n], id, key);
    }
  }

  lemma {:induction false} SequentialSame<S>(initial: map<Name, S>, txs: seq<Tx<S>>, id: nat, phase: Phase<S>,
                                             key: Name)
    requires id < |txs| && !txs[id].phase.Done? && !phase.Done?
    ensures Sequential(initial, txs[id := txs[id].(phase := phase)], key) == Sequential(initial, txs, key)
    decreases |txs|
  {
    var n := |txs| - 1;
    var txs' := txs[id := txs[id].(phase := phase)];
    if id == n {
      assert txs'[..n] == txs[..n];
    } else {
      assert txs'[..n] == txs[..n][id := txs[id].(phase := phase)];
      SequentialSame(initial, txs[..n], id, phase, key);
    }
  }

  lemma ArriveKeeps<S>(initial: map<Name, S>, y: System<S>, key: Name, callback: Callback<S>)
    requires Inv(initial, y)
    ensures Inv(initial, Next(y, Arrive(key, callback)))
  {
    var z := Next(y, Arrive(key, callback));
    ArriveKeepsOrder(y, key, callback);
    assert z.txs[..|y.txs|] == y.txs;
    hide Chained, InOrder, LocksRight;
    forall k ensures Sequential(initial, z.txs, k) == Sequential(initial, y.txs, k) {}
  }

  lemma ArriveKeepsOrder<S>(y: System<S>, key: Name, callback: Callback<S>)
    requires Chained(y.txs) && InOrder(y.txs) && LocksRight(y)
    ensures var z := Next(y, Arrive(key, callback)); Chained(z.txs) && InOrder(z.txs) && LocksRight(z)
  {
    ArriveKeepsLocks(y, key, callback);
    hide LocksRight;
    assert LocksOfKey(y, key);
  }

  /** The lock of a key is its last transaction; without one all of them are done. */
  ghost predicate LocksOfKey<S>(y: System<S>, key: Name) {
    if key in y.locks then
      && y.locks[key] < |y.txs| && y.txs[y.locks[key]].key == key
      && forall u :: y.locks[key] < u < |y.txs| ==> y.txs[u].key != key
    else forall u :: 0 <= u < |y.txs| && y.txs[u].key == key ==> y.txs[u].phase.Done?
  }

  lemma ArriveKeepsLocks<S>(y: System<S>, key: Name, callback: Callback<S>)
    requires LocksRight(y)
    ensures LocksRight(Next(y, Arrive(key, callback))) && LocksOfKey(y, key)
  {
  }

  /** Everything of its key before a transaction that may start is done. */
  lemma PredecessorsDone<S>(y: System<S>, id: nat, u: nat)
    requires Chained(y.txs) && id < |y.txs| && u < id && y.txs[u].key == y.txs[id].key
    requires y.txs[id].previous.Some? ==> Resolved(y.txs, y.txs[id].previous.value)
    ensures y.txs[u].phase.Done?
  {
    if y.txs[id].previous.Some? {
      ResolvedMeansDone(y.txs, y.txs[id].previous.value, u);
    }
  }

  lemma PhaseKeepsOrder<S>(txs: seq<Tx<S>>, id: nat, phase: Phase<S>)
    requires Chained(txs) && InOrder(txs) && id < |txs| && !txs[id].phase.Done?
    requires forall u :: 0 <= u < id && txs[u].key == txs[id].key ==> txs[u].phase.Done?
    requires !phase.Waiting?
    ensures Chained(txs[id := txs[id].(phase := phase)]) && InOrder(txs[id := txs[id].(phase := phase)])
  {
    var txs' := txs[id := txs[id].(phase := phase)];
    forall u | 0 <= u < |txs| ensures txs'[u].key == txs[u].key && txs'[u].previous == txs[u].previous {}
    forall u | 0 <= u < |txs| ensures txs[u].phase.Done? ==> txs'[u].phase.Done? {}
    hide Resolved;
    assert Chained(txs') by {
      forall t | 0 <= t < |txs'| && txs'[t].previous.None?
        ensures forall u :: 0 <= u < t && txs'[u].key == txs'[t].key ==> txs'[u].phase.Done?
      {
        assert txs[t].previous.None?;
      }
    }
  }

  lemma RunningKeepsLocks<S>(y: System<S>, id: nat, working: S)
    requires LocksRight(y) && id < |y.txs| && !y.txs[id].phase.Done?
    ensures LocksRight(y.(txs := y.txs[id := y.txs[id].(phase := Running(working))]))
  {
  }

  lemma DoneKeepsLocks<S>(y: System<S>, id: nat, spaces: map<Name, S>)
    requires LocksRight(y) && id < |y.txs| && !y.txs[id].phase.Done?
    requires forall u :: 0 <= u < id && y.txs[u].key == y.txs[id].key ==> y.txs[u].phase.Done?
    ensures LocksRight(System(spaces, y.txs[id := y.txs[id].(phase := Done)], Released<S>(y.locks, y.txs[id].key, id)))
  {
    var key := y.txs[id].key;
    var last := y.locks[key];
    assert last >= id;
  }

  lemma StartKeeps<S>(initial: map<Name, S>, y: System<S>, id: nat)
    requires Inv(initial, y) && Enabled(y, Start(id))
    ensures Inv(initial, Next(y, Start(id)))
  {
    var tx, z := y.txs[id], Next(y, Start(id));
    StartKeepsOrder(y, id);
    hide Chained, InOrder, LocksRight;
    forall k ensures Sequential(initial, z.txs, k) == Sequential(initial, y.txs, k) {
      assert At(y.spaces, k) == Sequential(initial, y.txs, k);
      if tx.key in y.spaces {
        SequentialSame(initial, y.txs, id, Running(y.spaces[tx.key]), k);
      } else {
        assert forall u :: id < u < |y.txs| && y.txs[u].key == tx.key ==>
                 !y.txs[u].phase.Done? by { SuccessorsWait(y.txs, id); }
        SequentialFinish(initial, y.txs, id, k);
      }
    }
  }

  lemma StartKeepsOrder<S>(y: System<S>, id: nat)
    requires Chained(y.txs) && InOrder(y.txs) && LocksRight(y) && Enabled(y, Start(id))
    ensures var z := Next(y, Start(id)); Chained(z.txs) && InOrder(z.txs) && LocksRight(z)
  {
    var tx, z := y.txs[id], Next(y, Start(id));
    hide Resolved;
    forall u | 0 <= u < id && y.txs[u].key == tx.key ensures y.txs[u].phase.Done? {
      PredecessorsDone(y, id, u);
    }
    PhaseKeepsOrder(y.txs, id, z.txs[id].phase);
    hide Chained, InOrder;
    if tx.key in y.spaces {
      RunningKeepsLocks(y, id, y.spaces[tx.key]);
    } else {
      DoneKeepsLocks(y, id, y.spaces);
    }
  }

  lemma SuccessorsWait<S>(txs: seq<Tx<S>>, id: nat)
    requires InOrder(txs) && id < |txs| && !txs[id].phase.Done?
    ensures forall u :: id < u < |txs| && txs[u].key == txs[id].key ==> txs[u].phase.Waiting?
  {
  }

  lemma FinishKeeps<S>(initial: map<Name, S>, y: System<S>, id: nat)
    requires Inv(initial, y) && Enabled(y, Finish(id))
    ensures Inv(initial, Next(y, Finish(id)))
  {
    var tx, z := y.txs[id], Next(y, Finish(id));
    SuccessorsWait(y.txs, id);
    PhaseKeepsOrder(y.txs, id, Done);
    DoneKeepsLocks(y, id, z.spaces);
    forall u | 0 <= u < |y.txs| && u != id && y.txs[u].key == tx.key ensures !y.txs[u].phase.Running? {
      assert u < id ==> y.txs[u].phase.Done?;
    }
    hide Chained, InOrder, LocksRight;
    forall key ensures At(z.spaces, key) == Sequential(initial, z.txs, key) {
      assert At(y.spaces, key) == Sequential(initial, y.txs, key);
      SequentialFinish(initial, y.txs, id, key);
    }
  }

  // ---------------------------------------------------------------- whole schedules

  ghost predicate Schedulable<S>(y: System<S>, actions: seq<Action<S>>)
    decreases |actions|
  {
    actions == [] || (Enabled(y, actions[0]) && Schedulable(Next(y, actions[0]), actions[1..]))
  }

  ghost function Schedule<S>(y: System<S>, actions: seq<Action<S>>): System<S>
    requires Schedulable(y, actions)
    decreases |actions|
  {
    if actions == [] then y else Schedule(Next(y, actions[0]), actions[1..])
  }

  lemma {:induction false} ScheduleKeeps<S>(initial: map<Name, S>, y: System<S>, actions: seq<Action<S>>)
    requires Inv(initial, y) && Schedulable(y, actions)
    ensures Inv(initial, Schedule(y, actions))
    decreases |actions|
  {
    hide Inv;
    if actions != [] {
      match actions[0] {
        case Arrive(key, callback) => ArriveKeeps(initial, y, key, callback);
        case Start(id) => StartKeeps(initial, y, id);
        case Finish(id) => FinishKeeps(initial, y, id);
      }
      ScheduleKeeps(initial, Next(y, actions[0]), actions[1..]);
    }
  }

  /**
    Serialisable, for any schedule of any number of transactions: at every point the committed
    state of a key, which is all that a read can see, is the sequential composition of its finished
    callbacks in order of arrival, those that threw contributing nothing; one transaction per key
    runs at a time, in order of arrival; and an idle key has no lock entry.
   */
  lemma TransactionsAreSerial<S>(initial: map<Name, S>, actions: seq<Action<S>>)
    requires Schedulable(System(initial, [], map[]), actions)
    ensures var y := Schedule(System(initial, [], map[]), actions);
            && (forall key :: At(y.spaces, key) == Sequential(initial, y.txs, key))
            && (forall t, u :: 0 <= t < u < |y.txs| && y.txs[t].key == y.txs[u].key && !y.txs[u].phase.Waiting? ==>
                y.txs[t].phase.Done?)
            && (forall key :: key in y.locks <==>
                exists t :: 0 <= t < |y.txs| && y.txs[t].key == key && !y.txs[t].phase.Done?)
  {
    hide Schedule, Schedulable;
    assert Inv(initial, System(initial, [], map[]));
    ScheduleKeeps(initial, System(initial, [], map[]), actions);
    var y := Schedule(System(initial, [], map[]), actions);
    forall key | key in y.locks ensures exists t :: 0 <= t < |y.txs| && y.txs[t].key == key && !y.txs[t].phase.Done? {
      assert y.txs[y.locks[key]].key == key;
    }
  }

  /** No transaction waits forever for the lock: the first unfinished one of a key can take a step. */
  lemma FirstUnfinishedCanStep<S>(initial: map<Name, S>, y: System<S>, id: nat)
    requires Inv(initial, y) && id < |y.txs| && !y.txs[id].phase.Done?
    requires forall u :: 0 <= u < id && y.txs[u].key == y.txs[id].key ==> y.txs[u].phase.Done?
    ensures Enabled(y, if y.txs[id].phase.Waiting? then Start(id) else Finish(id))
  {
    if y.txs[id].previous.Some? {
      ReleasedMeansResolved(y.txs, y.txs[id].previous.value);
    }
  }
}
