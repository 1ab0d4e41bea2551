/**
  Collecting an object and referring to it both take several steps with pauses in between, and neither
  takes a lock: cleanup looks for references, deletes the content and then the row; a reference set
  looks for the rows of its objects and is then written.
 */
module CollectionRaces {

  /**
    One object: whether its row exists, whether a reference set names it, how many cleanups have found
    it unreferenced and how many of those have deleted its content, and how many writers of reference
    sets have found its row.
   */
  datatype Row = Row(present: bool, held: bool, checked: nat, cleared: nat, found: nat)

  datatype Event = Check | Skip | Clear | Remove | Find | Refer | Release

  /** Cleanup goes on only with an unreferenced object, and a writer only with an existing one. */
  predicate Enabled(row: Row, e: Event) {
    match e
    case Check => !row.held
    case Skip | Clear => row.checked > 0
    case Remove => row.cleared > 0
    case Find => row.present
    case Refer => row.found > 0
    case Release => row.held
  }

  /** A cleanup passes over an object whose content it cannot delete. */
  function Next(row: Row, e: Event): Row
    requires Enabled(row, e)
  {
    match e
    case Check => row.(checked := row.checked + 1)
    case Skip => row.(checked := row.checked - 1)
    case Clear => row.(checked := row.checked - 1, cleared := row.cleared + 1)
    case Remove => row.(cleared := row.cleared - 1, present := false)
    case Find => row.(found := row.found + 1)
    case Refer => row.(found := row.found - 1, held := true)
    case Release => row.(held := false)
  }

  const FIRST := Row(true, false, 0, 0, 0)

  predicate Possible(events: seq<Event>)
    decreases |events|, 0
  {
    events == [] || (Possible(Front(events)) && Enabled(After(Front(events)), Last(events)))
  }

  function After(events: seq<Event>): Row
    requires Possible(events)
    decreases |events|, 1
  {
    if events == [] then FIRST else Next(After(Front(events)), Last(events))
  }

  function Front(events: seq<Event>): seq<Event>
    requires events != []
  {
    events[..|events| - 1]
  }

  function Last(events: seq<Event>): Event
    requires events != []
  {
    events[|events| - 1]
  }

  /** A reference set names an object whose row is gone. */
  predicate Dangling(row: Row) {
    row.held && !row.present
  }

  /** A cleanup has found the object unreferenced and is not done with it. */
  predicate Collecting(row: Row) {
    row.checked + row.cleared > 0
  }

  /** The references that hold the object now were written while a cleanup was at work on it. */
  predicate ReferredMeanwhile(events: seq<Event>)
    requires Possible(events)
    decreases |events|
  {
    events != [] && !Last(events).Release? &&
    ((Last(events).Refer? && Collecting(After(Front(events)))) || ReferredMeanwhile(Front(events)))
  }

  /** While a cleanup is at work on it, only references written meanwhile can hold the object. */
  lemma {:induction false} HeldMeanwhile(events: seq<Event>)
    requires Possible(events)
    ensures ReferredMeanwhile(events) ==> After(events).held
    ensures Collecting(After(events)) ==> (After(events).held <==> ReferredMeanwhile(events))
    decreases |events|
  {
    if events != [] {
      HeldMeanwhile(Front(events));
    }
  }

  /**
    A reference comes to dangle exactly when a cleanup removes the row after references were written
    during that cleanup, or when a writer that had found the row writes the only reference after the
    row was removed.
   */
  lemma DanglesExactly(events: seq<Event>)
    requires events != [] && Possible(events)
    ensures var before, e := After(Front(events)), Last(events);
            !Dangling(before) && Dangling(After(events)) <==>
            || (e.Remove? && before.present && ReferredMeanwhile(Front(events)))
            || (e.Refer? && !before.present && !before.held)
  {
    HeldMeanwhile(Front(events));
  }

  /** No writer looks for the row during a collection, and no collection begins while one is at work. */
  predicate Exclusive(events: seq<Event>)
    requires Possible(events)
    decreases |events|
  {
    events == []
      || (&& Exclusive(Front(events))
          && (Last(events).Check? ==> After(Front(events)).found == 0)
          && (Last(events).Find? ==> !Collecting(After(Front(events)))))
  }

  /** If the two exclude each other nothing ever dangles. */
  lemma {:induction false} ExclusionSuffices(events: seq<Event>)
    requires Possible(events) && Exclusive(events)
    ensures !Dangling(After(events))
    ensures Collecting(After(events)) ==> After(events).found == 0 && !After(events).held
    ensures After(events).found > 0 ==> After(events).present
    decreases |events|
  {
    if events != [] {
      ExclusionSuffices(Front(events));
    }
  }

  lemma OneMore(events: seq<Event>, e: Event)
    requires Possible(events) && Enabled(After(events), e)
    ensures Possible(events + [e]) && After(events + [e]) == Next(After(events), e)
  {
    assert (events + [e])[..|events|] == events;
  }

  /** A reference set is written while cleanup deletes the content. */
  lemma ReferenceDangles()
    ensures var events := [Check] + [Find] + [Refer] + [Clear] + [Remove]; Possible(events) && Dangling(After(events))
  {
    OneMore([], Check);
    assert [] + [Check] == [Check];
    OneMore([Check], Find);
    OneMore([Check] + [Find], Refer);
    OneMore([Check] + [Find] + [Refer], Clear);
    OneMore([Check] + [Find] + [Refer] + [Clear], Remove);
  }

  /** A reference set is written after the object that its writer found was removed. */
  lemma LateReferenceDangles()
    ensures var events := [Find] + [Check] + [Clear] + [Remove] + [Refer]; Possible(events) && Dangling(After(events))
  {
    OneMore([], Find);
    assert [] + [Find] == [Find];
    OneMore([Find], Check);
    OneMore([Find] + [Check], Clear);
    OneMore([Find] + [Check] + [Clear], Remove);
    OneMore([Find] + [Check] + [Clear] + [Remove], Refer);
  }
}
