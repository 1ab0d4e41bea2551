/**
  Receiving a part and completing take two steps each with a pause in between, during which they hold
  the lock of the upload. Looking at an upload does not take that lock, and cleanup neither takes it nor
  looks again at the status of an upload between listing it and ending it.
 */
module UploadRaces {

  datatype Status = Open | Completing | Complete | Cancelled | Expired

  /** What holds the lock of the upload. */
  datatype Work = Idle | Receiving | Finishing

  /**
    The status of an upload, what is under way, whether its deadline has passed, how many running
    cleanups have listed it, whether parts are recorded for it, whether some of those are no longer
    stored, and whether any part is stored.
   */
  datatype Row = Row(status: Status, work: Work, late: bool, listed: nat, recorded: bool, lost: bool, stored: bool)

  datatype Event =
    | Deadline | Receive | Store(verified: bool) | Begin | Finish(verified: bool) | Cancel | Look | List | Sweep

  predicate Terminal(s: Status) {
    s.Complete? || s.Cancelled? || s.Expired?
  }

  predicate Unfinished(s: Status) {
    s.Open? || s.Completing?
  }

  /** What the lock allows: one part, completion or cancellation at a time. */
  predicate Enabled(row: Row, e: Event) {
    match e
    case Receive | Begin | Cancel => row.work.Idle?
    case Store(_) => row.work.Receiving?
    case Finish(_) => row.work.Finishing?
    case Sweep => row.listed > 0
    case _ => true
  }

  /** The upload ends and its recorded parts are deleted. */
  function Ended(row: Row, status: Status): Row {
    row.(status := status, lost := row.recorded, stored := false)
  }

  /**
    Neither the storing of a part nor the end of a completion nor a sweep looks at the status again.
    Whatever ends an upload, except a look at it, also deletes its parts.
   */
  function Next(row: Row, e: Event): Row
    requires Enabled(row, e)
  {
    match e
    case Deadline => row.(late := true)
    case Receive =>
      if !row.status.Open? then row
      else if row.late then row.(status := Expired)
      else row.(work := Receiving)
    case Store(verified) =>
      if verified then row.(work := Idle, recorded := true, stored := true) else row.(work := Idle)
    case Begin =>
      if !row.status.Open? then row
      else if row.late then row.(status := Expired)
      else if !row.recorded then row
      else row.(status := Completing, work := Finishing)
    case Finish(verified) =>
      if verified then Ended(row.(work := Idle), Complete) else row.(status := Open, work := Idle)
    case Cancel => if row.status.Open? then Ended(row, Cancelled) else row
    case Look => if row.late && Unfinished(row.status) then row.(status := Expired) else row
    case List => if row.late && Unfinished(row.status) then row.(listed := row.listed + 1) else row
    case Sweep => Ended(row.(listed := row.listed - 1), Expired)
  }

  const FIRST := Row(Open, Idle, false, 0, false, false, false)

  predicate Possible(events: seq<Event>)
    decreases |events|, 0
  {
    events == [] || (Possible(Front(events)) && Enabled(After(Front(events)), Last(events)))
  }

  function After(events: seq<Event>): Row
    requires Possible(events)
    decreases |events|, 1
  {
    if events == [] then FIRST else Next(After(Front(events)), Last(events))
  }

  function Front(events: seq<Event>): seq<Event>
    requires events != []
  {
    events[..|events| - 1]
  }

  function Last(events: seq<Event>): Event
    requires events != []
  {
    events[|events| - 1]
  }

  /** The last event takes the upload out of a state that should be final. */
  predicate Undoes(events: seq<Event>)
    requires events != [] && Possible(events)
  {
    Terminal(After(Front(events)).status) && After(events).status != After(Front(events)).status
  }

  /** An open upload that has lost its parts: it can neither be resumed nor completed. */
  predicate Lost(row: Row) {
    row.status.Open? && row.lost
  }

  /** Parts of an upload that has ended are stored, and nothing that is under way will delete them. */
  predicate Stray(row: Row) {
    Terminal(row.status) && row.stored && row.work.Idle? && row.listed == 0
  }

  // ---------------------------------------------------------------- completions that are overtaken

  /** Ends the upload as far as its row goes, whatever is under way; a sweep also takes its parts. */
  predicate Overtakes(row: Row, e: Event, sweepsOnly: bool) {
    e.Sweep? || (!sweepsOnly && e.Look? && row.late)
  }

  /** The completion that is under way has been overtaken since it began. */
  predicate Overtaken(events: seq<Event>, sweepsOnly: bool)
    requires Possible(events)
    decreases |events|
  {
    events != [] && !Last(events).Finish? &&
    ((After(Front(events)).work.Finishing? && Overtakes(After(Front(events)), Last(events), sweepsOnly))
     || Overtaken(Front(events), sweepsOnly))
  }

  predicate RowRight(row: Row, expired: bool, swept: bool) {
    && (row.status.Completing? ==> row.work.Finishing?)
    && (row.work.Finishing? ==> row.recorded && (row.status.Completing? || row.status.Expired?))
    && (row.work.Finishing? && row.status.Expired? <==> expired)
    && (row.work.Finishing? && row.lost <==> swept)
    && (row.listed > 0 || Lost(row) || (row.work.Finishing? && row.lost) ==> row.late)
  }

  lemma RowStaysRight(row: Row, e: Event, expired: bool, swept: bool)
    requires Enabled(row, e) && RowRight(row, expired, swept)
    ensures RowRight(Next(row, e), !e.Finish? && ((row.work.Finishing? && Overtakes(row, e, false)) || expired),
                     !e.Finish? && ((row.work.Finishing? && Overtakes(row, e, true)) || swept))
  {
  }

  /** The row of a completion under way shows whether it was overtaken. */
  lemma {:induction false} RowShowsHistory(events: seq<Event>)
    requires Possible(events)
    ensures RowRight(After(events), Overtaken(events, false), Overtaken(events, true))
    decreases |events|
  {
    if events != [] {
      RowShowsHistory(Front(events));
      RowStaysRight(After(Front(events)), Last(events), Overtaken(Front(events), false),
                    Overtaken(Front(events), true));
    }
  }

  // ---------------------------------------------------------------- what is undone

  /**
    Final states are final exactly as far as no upload expires under a completion, and no upload ends
    between being listed and being swept: nothing else undoes a final state.
   */
  lemma FinalStatesAreUndoneExactly(events: seq<Event>)
    requires events != [] && Possible(events)
    ensures var before, e := After(Front(events)), Last(events);
            Undoes(events) <==>
            || (e.Finish? && Overtaken(Front(events), false))
            || (e.Sweep? && (before.status.Complete? || before.status.Cancelled?))
  {
    RowShowsHistory(Front(events));
    hide Overtaken;
  }

  /** An upload loses its parts while it is open exactly when a completion that was swept over fails. */
  lemma PartsAreLostExactly(events: seq<Event>)
    requires events != [] && Possible(events)
    ensures !Lost(After(Front(events))) && Lost(After(events)) <==>
            Last(events) == Finish(false) && Overtaken(Front(events), true)
  {
    RowShowsHistory(Front(events));
    hide Overtaken;
  }

  // ---------------------------------------------------------------- what is left behind

  /** Asking for the upload, in whatever way, ends it because its deadline has passed. */
  predicate EndsByLooking(row: Row, e: Event) {
    (e.Look? || e.Begin? || e.Receive?) && row.late && row.status.Open?
  }

  /**
    Parts are left behind exactly when an upload with stored parts is ended by looking at it, with
    nothing under way, or when the receiving of a part ends after the upload did, and a part is stored
    by then.
   */
  lemma PartsStrayExactly(events: seq<Event>)
    requires events != [] && Possible(events)
    ensures var before, e := After(Front(events)), Last(events);
            !Stray(before) && Stray(After(events)) <==>
            before.listed == 0 &&
            (|| (EndsByLooking(before, e) && before.work.Idle? && before.stored)
             || (e.Store? && Terminal(before.status) && (e.verified || before.stored)))
  {
    RowShowsHistory(Front(events));
    hide Overtaken, Possible, After;
    StraysExactly(After(Front(events)), Last(events));
  }

  lemma StraysExactly(row: Row, e: Event)
    requires Enabled(row, e) && (row.status.Completing? ==> row.work.Finishing?)
    ensures !Stray(row) && Stray(Next(row, e)) <==>
            row.listed == 0 &&
            (|| (EndsByLooking(row, e) && row.work.Idle? && row.stored)
             || (e.Store? && Terminal(row.status) && (e.verified || row.stored)))
  {
  }

  /** Parts that are left behind stay for good. */
  lemma StraysStay(row: Row, e: Event)
    requires Stray(row) && Enabled(row, e)
    ensures Stray(Next(row, e))
  {
  }

  // ---------------------------------------------------------------- schedules

  /** Without a deadline in sight nothing is ever undone, and no parts are lost. */
  lemma {:induction false} FinalWithoutDeadline(events: seq<Event>)
    requires events != [] && Possible(events) && Deadline !in events
    ensures !Undoes(events) && !Lost(After(events))
  {
    forall e | e in Front(events) ensures e in events {}
    NeverLate(Front(events));
    NeverLate(events);
    RowShowsHistory(events);
    FinalStatesAreUndoneExactly(events);
  }

  lemma {:induction false} NeverLate(events: seq<Event>)
    requires Possible(events) && Deadline !in events
    ensures !After(events).late && After(events).listed == 0 && !Overtaken(events, false)
    decreases |events|
  {
    if events != [] {
      NeverLate(Front(events));
      assert Last(events) in events;
    }
  }

  lemma OneMore(events: seq<Event>, e: Event)
    requires Possible(events) && Enabled(After(events), e)
    ensures Possible(events + [e]) && After(events + [e]) == Next(After(events), e)
    ensures Front(events + [e]) == events && Last(events + [e]) == e
  {
    assert (events + [e])[..|events|] == events;
  }

  lemma OnePart()
    ensures Possible([Receive, Store(true)])
            && After([Receive, Store(true)]) == Row(Open, Idle, false, 0, true, false, true)
  {
    OneMore([], Receive);
    OneMore([] + [Receive], Store(true));
    assert [] + [Receive] + [Store(true)] == [Receive, Store(true)];
  }

  /** An upload that was reported as expired completes, or opens again. */
  lemma ExpiredUploadRevives(verified: bool)
    ensures var events := [Receive, Store(true)] + [Begin] + [Deadline] + [Look] + [Finish(verified)];
            Possible(events) && Undoes(events)
  {
    OnePart();
    OneMore([Receive, Store(true)], Begin);
    OneMore([Receive, Store(true)] + [Begin], Deadline);
    OneMore([Receive, Store(true)] + [Begin] + [Deadline], Look);
    OneMore([Receive, Store(true)] + [Begin] + [Deadline] + [Look], Finish(verified));
  }

  lemma ListedInCompletion()
    ensures var events := [Receive, Store(true)] + [Begin] + [Deadline] + [List];
            Possible(events) && After(events) == Row(Completing, Finishing, true, 1, true, false, true)
  {
    OnePart();
    OneMore([Receive, Store(true)], Begin);
    OneMore([Receive, Store(true)] + [Begin], Deadline);
    OneMore([Receive, Store(true)] + [Begin] + [Deadline], List);
  }

  /** A completed upload is swept away by a cleanup that listed it before it completed. */
  lemma CompletedUploadExpires()
    ensures var events := [Receive, Store(true)] + [Begin] + [Deadline] + [List] + [Finish(true)] + [Sweep];
            Possible(events) && Undoes(events)
  {
    ListedInCompletion();
    OneMore([Receive, Store(true)] + [Begin] + [Deadline] + [List], Finish(true));
    OneMore([Receive, Store(true)] + [Begin] + [Deadline] + [List] + [Finish(true)], Sweep);
  }

  /** A completion that is swept over and then fails opens an upload without parts. */
  lemma FailedCompletionLosesParts()
    ensures var events := [Receive, Store(true)] + [Begin] + [Deadline] + [List] + [Sweep] + [Finish(false)];
            Possible(events) && Lost(After(events))
  {
    ListedInCompletion();
    OneMore([Receive, Store(true)] + [Begin] + [Deadline] + [List], Sweep);
    OneMore([Receive, Store(true)] + [Begin] + [Deadline] + [List] + [Sweep], Finish(false));
  }

  /** A look after the deadline leaves the parts of an upload behind. */
  lemma LookLeavesParts()
    ensures var events := [Receive, Store(true)] + [Deadline] + [Look]; Possible(events) && Stray(After(events))
  {
    OnePart();
    OneMore([Receive, Store(true)], Deadline);
    OneMore([Receive, Store(true)] + [Deadline], Look);
  }

  /** A part that arrives during a sweep is left behind. */
  lemma LatePartStays()
    ensures var events := [Receive] + [Deadline] + [List] + [Sweep] + [Store(true)];
            Possible(events) && Stray(After(events))
  {
    OneMore([], Receive);
    assert [] + [Receive] == [Receive];
    OneMore([Receive], Deadline);
    OneMore([Receive] + [Deadline], List);
    OneMore([Receive] + [Deadline] + [List], Sweep);
    OneMore([Receive] + [Deadline] + [List] + [Sweep], Store(true));
  }
}
