/**
  Reads take no lock. A read holds on to the state object it finds and looks at it as often as it
  likes; a transaction changes its own copy in place and puts it in the place of the old object.
 */
module Reads {
  import opened Transactions
  import opened Wrappers

  type Handle = nat

  /** A read: the object it took, how many steps of the lock had been made, and what its looks have shown. */
  datatype View<S> = View(key: Name, handle: Option<Handle>, begun: nat, seen: seq<S>)

  datatype ReadAction<!S> = Lock(action: Action<S>) | Mutate(id: nat,
                                                             content: S) | BeginRead(key: Name) | Look(view: nat)

  /**
    The lock, the objects up to the next free handle, which of them is the committed state of a key,
    which is the copy of a transaction, and the reads so far.
   */
  datatype Readers<!S> = Readers(
    system: System<S>, heap: Handle -> S, next: Handle, current: Name -> Handle, copy: nat -> Handle,
    views: seq<View<S>>, steps: nat)

  function Put<S>(heap: Handle -> S, h: Handle, content: S): Handle -> S {
    (g: Handle) => if g == h then content else heap(g)
  }

  ghost predicate Running<S>(y: System<S>, id: nat) {
    id < |y.txs| && y.txs[id].phase.Running?
  }

  ghost predicate CanRead<S>(y: Readers<S>, a: ReadAction<S>) {
    match a
    case Lock(action) => Enabled(y.system, action)
    case Mutate(id, _) => Running(y.system, id)
    case BeginRead(_) => true
    case Look(v) => v < |y.views| && y.views[v].handle.Some?
  }

  /** Starting makes a copy of the committed object; committing makes the copy the committed object. */
  ghost function Locked<S>(y: Readers<S>, a: Action<S>): Readers<S>
    requires Enabled(y.system, a)
  {
    var z := y.(system := Next(y.system, a), steps := y.steps + 1);
    match a
    case Arrive(_, _) => z
    case Start(id) =>
      if y.system.txs[id].key !in y.system.spaces then z
      else
        z.(heap := Put(y.heap, y.next, y.heap(y.current(y.system.txs[id].key))), next := y.next + 1,
           copy := other => if other == id then y.next else y.copy(other))
    case Finish(id) =>
      var tx := y.system.txs[id];
      var result := tx.callback(tx.phase.working);
      if result.None? then z
      else
        z.(heap := Put(y.heap, y.copy(id), result.value),
           current := key => if key == tx.key then y.copy(id) else y.current(key))
  }

  ghost function NextRead<S>(y: Readers<S>, a: ReadAction<S>): Readers<S>
    requires CanRead(y, a)
  {
    match a
    case Lock(action) => Locked(y, action)
    case Mutate(id, content) => y.(heap := Put(y.heap, y.copy(id), content))
    case BeginRead(key) =>
      y.(views := y.views + [View(key, if key in y.system.spaces then Some(y.current(key)) else None, y.steps, [])])
    case Look(v) =>
      y.(views := y.views[v := y.views[v].(seen := y.views[v].seen + [y.heap(y.views[v].handle.value)])])
  }

  ghost predicate Overlapping<S>(y: Readers<S>, actions: seq<ReadAction<S>>)
    decreases |actions|
  {
    actions == [] || (CanRead(y, actions[0]) && Overlapping(NextRead(y, actions[0]), actions[1..]))
  }

  ghost function Overlap<S>(y: Readers<S>, actions: seq<ReadAction<S>>): Readers<S>
    requires Overlapping(y, actions)
    decreases |actions|
  {
    if actions == [] then y else Overlap(NextRead(y, actions[0]), actions[1..])
  }

  /** The steps of the lock in a schedule with reads. */
  function Locks<S>(actions: seq<ReadAction<S>>): seq<Action<S>> {
    if actions == [] then []
    else (if actions[0].Lock? then [actions[0].action] else []) + Locks(actions[1..])
  }

  // ---------------------------------------------------------------- which objects may change

  /** The committed objects are the committed states. */
  ghost predicate CommittedRight<S>(y: Readers<S>) {
    forall key :: key in y.system.spaces ==> y.current(key) < y.next && y.heap(y.current(key)) == y.system.spaces[key]
  }

  /** Running transactions have copies of their own, which are not committed. */
  ghost predicate CopiesApart<S>(y: Readers<S>) {
    && (forall id :: Running(y.system, id) ==> y.copy(id) < y.next)
    && (forall id, key :: Running(y.system, id) && key in y.system.spaces ==> y.copy(id) != y.current(key))
    && (forall id, other :: Running(y.system, id) && Running(y.system, other) && id != other ==>
        y.copy(id) != y.copy(other))
  }

  /** No read has taken the copy of a running transaction. */
  ghost predicate ViewsApart<S>(y: Readers<S>) {
    forall v :: 0 <= v < |y.views| && y.views[v].handle.Some? ==>
      && y.views[v].handle.value < y.next
      && forall id :: Running(y.system, id) ==> y.copy(id) != y.views[v].handle.value
  }

  ghost predicate Apart<S>(y: Readers<S>) {
    CommittedRight(y) && CopiesApart(y) && ViewsApart(y)
  }

  lemma StartKeepsApart<S>(y: Readers<S>, id: nat)
    requires Apart(y) && Enabled(y.system, Start(id))
    ensures Apart(Locked(y, Start(id)))
  {
    var z := Locked(y, Start(id));
    forall other
      ensures Running(z.system, other) ==> Running(y.system, other) || (other == id && z.copy(id) == y.next) {}
    assert forall other :: other != id ==> z.copy(other) == y.copy(other);
  }

  lemma FinishKeepsApart<S>(y: Readers<S>, id: nat)
    requires Apart(y) && Enabled(y.system, Finish(id))
    ensures Apart(Locked(y, Finish(id)))
  {
    var z := Locked(y, Finish(id));
    forall other ensures Running(z.system, other) ==> Running(y.system, other) && other != id {}
  }

  lemma NextKeepsApart<S>(y: Readers<S>, a: ReadAction<S>)
    requires Apart(y) && CanRead(y, a)
    ensures Apart(NextRead(y, a))
  {
    match a
    case Lock(action) =>
      if action.Start? {
        StartKeepsApart(y, action.id);
      } else if action.Finish? {
        FinishKeepsApart(y, action.id);
      } else {
        var z := Locked(y, action);
        forall id ensures Running(z.system, id) ==> Running(y.system, id) {}
      }
    case Mutate(_, _) =>
    case BeginRead(_) =>
    case Look(_) =>
  }

  /** What a read has taken never changes. */
  lemma ObjectStays<S>(y: Readers<S>, a: ReadAction<S>, v: nat)
    requires Apart(y) && CanRead(y, a) && v < |y.views| && y.views[v].handle.Some?
    ensures NextRead(y, a).heap(y.views[v].handle.value) == y.heap(y.views[v].handle.value)
  {
  }

  // ---------------------------------------------------------------- what reads see

  /** Every look of a read has shown, and would show, the committed state at the step at which it began. */
  ghost predicate SeesCommitted<S>(start: System<S>, actions: seq<Action<S>>, heap: Handle -> S, view: View<S>)
    requires Schedulable(start, actions)
  {
    && view.begun <= |actions| && Schedulable(start, actions[..view.begun])
    && var state := At(Schedule(start, actions[..view.begun]).spaces, view.key);
       && (view.handle.Some? <==> state.Some?)
       && (state.Some? ==> heap(view.handle.value) == state.value)
       && forall i :: 0 <= i < |view.seen| ==> state == Some(view.seen[i])
  }

  lemma {:induction false} ScheduleJoins<S>(y: System<S>, actions: seq<Action<S>>, a: Action<S>)
    requires Schedulable(y, actions)
    ensures Schedulable(y, actions + [a]) <==> Enabled(Schedule(y, actions), a)
    ensures Enabled(Schedule(y, actions), a) ==> Schedule(y, actions + [a]) == Next(Schedule(y, actions), a)
    decreases |actions|
  {
    hide Enabled, Next;
    if actions == [] {
      assert [] + [a] == [a] && [a][1..] == [];
    } else {
      ScheduleJoins(Next(y, actions[0]), actions[1..], a);
      assert (actions + [a])[1..] == actions[1..] + [a];
    }
  }

  lemma SeesLater<S>(start: System<S>, done: seq<Action<S>>, more: seq<Action<S>>, heap: Handle -> S,
                     heap': Handle -> S,
                     view: View<S>)
    requires Schedulable(start, done) && Schedulable(start, done + more) && SeesCommitted(start, done, heap, view)
    requires view.handle.Some? ==> heap'(view.handle.value) == heap(view.handle.value)
    ensures SeesCommitted(start, done + more, heap', view)
  {
    hide Schedulable, Schedule;
    assert (done + more)[..view.begun] == done[..view.begun];
  }

  ghost predicate AllSee<S>(start: System<S>, done: seq<Action<S>>, y: Readers<S>)
    requires Schedulable(start, done)
  {
    forall v :: 0 <= v < |y.views| ==> SeesCommitted(start, done, y.heap, y.views[v])
  }

  lemma LockKeepsViews<S>(start: System<S>, done: seq<Action<S>>, y: Readers<S>, a: Action<S>)
    requires Schedulable(start, done) && y.system == Schedule(start, done) && Apart(y) && AllSee(start, done, y)
    requires Enabled(y.system, a) && Schedulable(start, done + [a])
    ensures AllSee(start, done + [a], NextRead(y, Lock(a)))
  {
    hide Schedulable, Schedule, Apart, SeesCommitted, Enabled, Next;
    var z := NextRead(y, Lock(a));
    forall v | 0 <= v < |z.views| ensures SeesCommitted(start, done + [a], z.heap, z.views[v]) {
      if y.views[v].handle.Some? {
        ObjectStays(y, Lock(a), v);
      }
      SeesLater(start, done, [a], y.heap, z.heap, y.views[v]);
    }
  }

  lemma ReadKeepsViews<S>(start: System<S>, done: seq<Action<S>>, y: Readers<S>, a: ReadAction<S>)
    requires Schedulable(start, done) && y.system == Schedule(start, done) && y.steps == |done|
    requires Apart(y) && AllSee(start, done, y) && CanRead(y, a) && !a.Lock?
    ensures AllSee(start, done, NextRead(y, a))
  {
    hide Schedulable, Schedule, Apart;
    var z := NextRead(y, a);
    forall v | 0 <= v < |z.views| ensures SeesCommitted(start, done, z.heap, z.views[v]) {
      if v < |y.views| {
        assert SeesCommitted(start, done, y.heap, y.views[v]);
        if y.views[v].handle.Some? {
          ObjectStays(y, a, v);
        }
      } else {
        BeginsCommitted(start, done, y, a.key);
      }
    }
  }

  lemma BeginsCommitted<S>(start: System<S>, done: seq<Action<S>>, y: Readers<S>, key: Name)
    requires Schedulable(start, done) && y.system == Schedule(start, done) && y.steps == |done| && Apart(y)
    ensures var z := NextRead(y, BeginRead(key)); SeesCommitted(start, done, z.heap, z.views[|y.views|])
  {
    hide Schedulable, Schedule;
    assert done[..|done|] == done;
  }

  /** Continuing a schedule after some steps of the lock, with reads among them. */
  lemma {:induction false} OverlapKeeps<S>(start: System<S>, done: seq<Action<S>>, y: Readers<S>,
                                           actions: seq<ReadAction<S>>)
    requires Schedulable(start, done) && y.system == Schedule(start, done) && y.steps == |done|
    requires Overlapping(y, actions) && Apart(y) && AllSee(start, done, y)
    ensures var z := Overlap(y, actions);
            && Schedulable(start, done + Locks(actions)) && z.system == Schedule(start, done + Locks(actions))
            && AllSee(start, done + Locks(actions), z)
    decreases |actions|
  {
    hide Enabled, Next, Schedulable, Schedule, AllSee, Locks, Apart, Running;
    LocksOf(done, actions);
    if actions != [] {
      NextKeepsApart(y, actions[0]);
      if actions[0].Lock? {
        ScheduleJoins(start, done, actions[0].action);
        LockKeepsViews(start, done, y, actions[0].action);
        OverlapKeeps(start, done + [actions[0].action], NextRead(y, actions[0]), actions[1..]);
      } else {
        ReadKeepsViews(start, done, y, actions[0]);
        OverlapKeeps(start, done, NextRead(y, actions[0]), actions[1..]);
      }
    }
  }

  lemma LocksOf<S>(done: seq<Action<S>>, actions: seq<ReadAction<S>>)
    ensures actions == [] ==> done + Locks(actions) == done
    ensures actions != [] && actions[0].Lock? ==>
              done + Locks(actions) == done + [actions[0].action] + Locks(actions[1..])
    ensures actions != [] && !actions[0].Lock? ==> done + Locks(actions) == done + Locks(actions[1..])
  {
    if actions != [] && actions[0].Lock? {
      assert done + ([actions[0].action] + Locks(actions[1..])) == done + [actions[0].action] + Locks(actions[1..]);
    } else if actions != [] {
      assert [] + Locks(actions[1..]) == Locks(actions[1..]);
    }
  }

  /** Before any transaction or read, with the initial states laid out in any way. */
  ghost predicate Fresh<S>(initial: map<Name, S>, y: Readers<S>) {
    y.system == System(initial, [], map[]) && y.views == [] && y.steps == 0 && CommittedRight(y)
  }

  /**
    Whatever transactions a read overlaps with, and whatever they do to their copies, all its looks show
    one and the same committed state: the sequential composition of the callbacks that had finished when
    the read began.
   */
  lemma ReadsSeeCommittedStates<S>(initial: map<Name, S>, y: Readers<S>, actions: seq<ReadAction<S>>)
    requires Fresh(initial, y) && Overlapping(y, actions)
    ensures var z := Overlap(y, actions);
            && Schedulable(y.system, Locks(actions))
            && forall v :: 0 <= v < |z.views| ==>
                 && z.views[v].begun <= |Locks(actions)| && Schedulable(y.system, Locks(actions)[..z.views[v].begun])
                 && var begun := Schedule(y.system, Locks(actions)[..z.views[v].begun]);
                    var state := Sequential(initial, begun.txs, z.views[v].key);
                    forall i :: 0 <= i < |z.views[v].seen| ==> Some(z.views[v].seen[i]) == state
  {
    var start := y.system;
    assert Schedulable(start, []) && Schedule(start, []) == start;
    hide Schedulable, Schedule, Overlapping, Overlap, CommittedRight;
    OverlapKeeps(start, [], y, actions);
    assert [] + Locks(actions) == Locks(actions);
    var z := Overlap(y, actions);
    forall v | 0 <= v < |z.views|
      ensures SeesCommitted(start, Locks(actions), z.heap, z.views[v])
      ensures var begun := Schedule(start, Locks(actions)[..z.views[v].begun]);
              Sequential(initial, begun.txs, z.views[v].key) == At(begun.spaces, z.views[v].key)
    {
      TransactionsAreSerial(initial, Locks(actions)[..z.views[v].begun]);
    }
  }
}
