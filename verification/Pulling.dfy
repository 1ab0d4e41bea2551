/**
  Cursor-paged pull. A cursor names a position and the upper bound of a window; the window is frozen
  until it is drained. Cursor tokens are sealed by the server, so a token stands for its contents.
 */
module Pulling {
  import opened Wrappers
  import opened Schema
  import opened Histories
  import opened Replication
  import opened Runs
  import opened Replicas

  datatype Cursor = Cursor(spaceId: Id, epoch: nat, categories: set<Category>, sequence: int, upper: int)

  datatype Page = Page(changes: seq<Change>, nextCursor: Cursor, upperCursor: Cursor, hasMore: bool, restoreEpoch: nat)

  datatype PullError = InvalidRequest | InvalidCursor | EpochChanged | CursorExpired

  const MAX_LIMIT := 500

  /** Checks a cursor against the space and the filter it is used with. */
  function Decode(s: Space, categories: set<Category>, c: Cursor): Result<Cursor, PullError> {
    if c.spaceId != s.scope.spaceId || c.categories != categories || c.sequence < 0 || c.upper < c.sequence then
      Err(InvalidCursor)
    else if c.epoch != s.restoreEpoch then Err(EpochChanged)
    else Ok(c)
  }

  /** The position and window a request starts from. */
  function Position(s: Space, categories: set<Category>, cursor: Option<Cursor>): Result<(int, int), PullError> {
    match cursor
    case None => Ok((0, s.nextSequence))
    case Some(c) =>
      match Decode(s, categories, c)
      case Err(e) => Err(e)
      case Ok(position) =>
        if position.sequence < s.floorSequence - 1 then Err(CursorExpired)
        else Ok((position.sequence, if position.sequence == position.upper then s.nextSequence else position.upper))
  }

  function Pull(s: Space, categories: set<Category>, cursor: Option<Cursor>, limit: int): Result<Page, PullError> {
    if limit < 1 || MAX_LIMIT < limit then Err(InvalidRequest)
    else
      match Position(s, categories, cursor)
      case Err(e) => Err(e)
      case Ok((from, upper)) =>
        var all := Slice(s.changes, categories, from, upper);
        var rows := if |all| <= limit + 1 then all else all[..limit + 1];
        var hasMore := |rows| > limit;
        var changes := if hasMore then rows[..limit] else rows;
        var sequence := if hasMore then changes[limit - 1].sequence else upper;
        Ok(Page(changes,
                Cursor(s.scope.spaceId, s.restoreEpoch, categories, sequence, upper),
                Cursor(s.scope.spaceId, s.restoreEpoch, categories, upper, upper),
                hasMore, s.restoreEpoch))
  }

  // ---------------------------------------------------------------- slices of an increasing log

  ghost predicate Increasing(changes: seq<Change>) {
    forall i, j :: 0 <= i < j < |changes| ==> changes[i].sequence < changes[j].sequence
  }

  lemma {:induction false} SliceFacts(changes: seq<Change>, categories: set<Category>, lo: int, hi: int)
    requires Increasing(changes)
    ensures var rows := Slice(changes, categories, lo, hi);
            && Increasing(rows)
            && (forall c :: c in rows <==> c in changes && lo < c.sequence <= hi && Selects(categories, c.category))
    decreases |changes|
  {
    hide Selects;
    if changes != [] {
      var rest, last := changes[..|changes| - 1], changes[|changes| - 1];
      SliceFacts(rest, categories, lo, hi);
      SliceNext(changes, categories, lo, hi);
      hide Slice;
      assert changes == rest + [last];
      forall c | c in rest ensures c.sequence < last.sequence {
        var i :| 0 <= i < |rest| && rest[i] == c;
        assert changes[i] == c;
      }
      IncreasingNext(Slice(rest, categories, lo, hi), last);
    }
  }

  lemma IncreasingNext(rows: seq<Change>, c: Change)
    requires Increasing(rows) && forall r :: r in rows ==> r.sequence < c.sequence
    ensures Increasing(rows + [c])
  {
  }

  lemma {:induction false} SliceEmpty(changes: seq<Change>, categories: set<Category>, lo: int, hi: int)
    requires forall i :: 0 <= i < |changes| ==> !(lo < changes[i].sequence <= hi)
    ensures Slice(changes, categories, lo, hi) == []
    decreases |changes|
  {
    if changes != [] {
      SliceEmpty(changes[..|changes| - 1], categories, lo, hi);
    }
  }

  lemma {:induction false} SliceSplits(changes: seq<Change>, categories: set<Category>, lo: int, mid: int, hi: int)
    requires Increasing(changes) && lo <= mid <= hi
    ensures Slice(changes, categories, lo, hi) ==
            Slice(changes, categories, lo, mid) + Slice(changes, categories, mid, hi)
    decreases |changes|
  {
    if changes != [] {
      var rest, last := changes[..|changes| - 1], changes[|changes| - 1];
      hide Selects;
      SliceSplits(rest, categories, lo, mid, hi);
      if last.sequence <= mid {
        SliceEmpty(changes, categories, mid, hi);
        SliceEmpty(rest, categories, mid, hi);
        assert Slice(changes, categories, lo, mid) + [] == Slice(changes, categories, lo, mid);
      } else {
        var a, b := Slice(rest, categories, lo, mid), Slice(rest, categories, mid, hi);
        assert a + (b + [last]) == (a + b) + [last];
      }
    }
  }

  lemma {:induction false} SliceOfPrefix(changes: seq<Change>, more: seq<Change>, categories: set<Category>, lo: int,
                                         hi: int)
    requires forall i :: 0 <= i < |more| ==> hi < more[i].sequence
    ensures Slice(changes + more, categories, lo, hi) == Slice(changes, categories, lo, hi)
    decreases |more|
  {
    if more == [] {
      assert changes + more == changes;
    } else {
      assert (changes + more)[..|changes + more| - 1] == changes + more[..|more| - 1];
      SliceOfPrefix(changes, more[..|more| - 1], categories, lo, hi);
    }
  }

  /** The first rows of a slice are the slice up to the last of them. */
  lemma FirstRows(changes: seq<Change>, categories: set<Category>, lo: int, hi: int, n: nat)
    requires Increasing(changes) && 1 <= n <= |Slice(changes, categories, lo, hi)|
    ensures var rows := Slice(changes, categories, lo, hi);
            var mid := rows[n - 1].sequence;
            && lo < mid <= hi
            && rows[..n] == Slice(changes, categories, lo, mid) && rows[n..] == Slice(changes, categories, mid, hi)
  {
    var rows := Slice(changes, categories, lo, hi);
    var mid := rows[n - 1].sequence;
    SliceFacts(changes, categories, lo, hi);
    assert rows[n - 1] in rows;
    SliceSplits(changes, categories, lo, mid, hi);
    SliceFacts(changes, categories, lo, mid);
    SliceFacts(changes, categories, mid, hi);
    var first := Slice(changes, categories, lo, mid);
    var second := Slice(changes, categories, mid, hi);
    forall k | 0 <= k < |rows| ensures k < |first| <==> rows[k].sequence <= mid {
      if k < |first| {
        assert rows[k] == first[k] && first[k] in first;
      } else {
        assert rows[k] == second[k - |first|] && second[k - |first|] in second;
      }
    }
    assert rows[n - 1].sequence <= mid;
    if n < |rows| {
      assert mid < rows[n].sequence;
    }
  }

  // ---------------------------------------------------------------- one page

  lemma DenseIsIncreasing(s: Space)
    requires Inv(s)
    ensures Increasing(s.changes)
    ensures forall i :: 0 <= i < |s.changes| ==> 0 < s.changes[i].sequence <= s.nextSequence
  {
  }

  /**
    One page: it is the selected log between the old and the new position; a page with more to come
    is full, makes strict progress and leaves the window alone; any other page drains the window.
   */
  lemma PageFacts(s: Space, categories: set<Category>, cursor: Option<Cursor>, limit: int)
    requires Inv(s) && Pull(s, categories, cursor, limit).Ok?
    ensures Position(s, categories, cursor).Ok?
    ensures cursor.Some? ==> cursor.value.epoch == s.restoreEpoch && 0 <= cursor.value.sequence <= cursor.value.upper
    ensures Position(s, categories, cursor).value ==
            if cursor.None? then (0, s.nextSequence)
            else (cursor.value.sequence, if cursor.value.sequence == cursor.value.upper then s.nextSequence
                  else cursor.value.upper)
    ensures var page := Pull(s, categories, cursor, limit).value;
            var (from, upper) := Position(s, categories, cursor).value;
            var next := page.nextCursor;
            && next.upper == upper && next.categories == categories && next.epoch == s.restoreEpoch
               && next.spaceId == s.scope.spaceId
            && page.upperCursor == next.(sequence := upper)
            && (from <= upper ==> from <= next.sequence <= upper)
            && page.changes == Slice(s.changes, categories, from, next.sequence)
            && (page.hasMore ==>
                  && |page.changes| == limit && from < next.sequence
                  && |Slice(s.changes, categories, next.sequence, upper)| ==
                     |Slice(s.changes, categories, from, upper)| - limit)
            && (!page.hasMore ==> next.sequence == upper)
  {
    hide Inv;
    DenseIsIncreasing(s);
    var (from, upper) := Position(s, categories, cursor).value;
    var all := Slice(s.changes, categories, from, upper);
    if |all| > limit {
      FirstRows(s.changes, categories, from, upper, limit);
    }
  }

  /**
    What a served request gets, in terms of the log: the entries of its categories above the position it
    starts from and up to the one it hands out, in log order and none twice; if there are more up to the
    bound, as many as it asked for and the number of the last one is handed out, and otherwise the bound.
   */
  lemma PageExactly(s: Space, categories: set<Category>, cursor: Option<Cursor>, limit: int)
    requires Inv(s) && Pull(s, categories, cursor, limit).Ok?
    ensures var page := Pull(s, categories, cursor, limit).value;
            var from := if cursor.Some? then cursor.value.sequence else 0;
            var upper :=
              if cursor.Some? && cursor.value.sequence < cursor.value.upper then cursor.value.upper else s.nextSequence;
            var next := page.nextCursor.sequence;
            && page.nextCursor == Cursor(s.scope.spaceId, s.restoreEpoch, categories, next, upper)
            && page.upperCursor == Cursor(s.scope.spaceId, s.restoreEpoch, categories, upper, upper)
            && page.restoreEpoch == s.restoreEpoch
            && (forall c :: c in page.changes <==>
                  c in s.changes && from < c.sequence <= next && (categories == {} || c.category in categories))
            && (forall i, j :: 0 <= i < j < |page.changes| ==> page.changes[i].sequence < page.changes[j].sequence)
            && (page.hasMore <==>
                |page.changes| == limit
                && exists c ::
                     c in s.changes && next < c.sequence <= upper && (categories == {} || c.category in categories))
            && next == if page.hasMore then page.changes[limit - 1].sequence else upper
  {
    PageFacts(s, categories, cursor, limit);
    DenseIsIncreasing(s);
    LeftOver(s, categories, cursor, limit);
    hide *;
    var (from, upper) := Position(s, categories, cursor).value;
    var next := Pull(s, categories, cursor, limit).value.nextCursor.sequence;
    SliceExactly(s.changes, categories, from, next);
    SliceExactly(s.changes, categories, next, upper);
  }

  /** The entries of a slice, and when there are any. */
  lemma SliceExactly(changes: seq<Change>, categories: set<Category>, lo: int, hi: int)
    requires Increasing(changes)
    ensures var rows := Slice(changes, categories, lo, hi);
            && (forall c :: c in rows <==>
                  c in changes && lo < c.sequence <= hi && (categories == {} || c.category in categories))
            && (forall i, j :: 0 <= i < j < |rows| ==> rows[i].sequence < rows[j].sequence)
            && (rows != [] <==>
                exists c :: c in changes && lo < c.sequence <= hi && (categories == {} || c.category in categories))
  {
    SliceFacts(changes, categories, lo, hi);
    hide Slice;
    var rows := Slice(changes, categories, lo, hi);
    if rows != [] {
      assert rows[0] in rows;
    }
  }

  lemma LeftOver(s: Space, categories: set<Category>, cursor: Option<Cursor>, limit: int)
    requires Inv(s) && Pull(s, categories, cursor, limit).Ok?
    ensures Position(s, categories, cursor).Ok?
    ensures var page := Pull(s, categories, cursor, limit).value;
            var upper := Position(s, categories, cursor).value.1;
            && 1 <= limit && |page.changes| <= limit
            && (page.hasMore <==> Slice(s.changes, categories, page.nextCursor.sequence, upper) != [])
            && (page.hasMore ==>
                |page.changes| == limit && page.nextCursor.sequence == page.changes[limit - 1].sequence)
  {
    PageFacts(s, categories, cursor, limit);
    DenseIsIncreasing(s);
    var (from, upper) := Position(s, categories, cursor).value;
    if !Pull(s, categories, cursor, limit).value.hasMore {
      SliceEmpty(s.changes, categories, upper, upper);
    }
    hide Inv, Slice;
  }

  /**
    Which requests are refused, and with what. The epoch and the floor are looked at for a cursor only:
    without one the whole log that is left is served, however much of it is gone.
   */
  lemma RefusedExactly(s: Space, categories: set<Category>, cursor: Option<Cursor>, limit: int)
    ensures var answer := Pull(s, categories, cursor, limit);
            && (answer == Err(InvalidRequest) <==> !(1 <= limit <= 500))
            && (1 <= limit <= 500 && cursor.None? ==> answer.Ok?)
            && (1 <= limit <= 500 && cursor.Some? ==>
                var c := cursor.value;
                var wellFormed := c.spaceId == s.scope.spaceId && c.categories == categories
                  && 0 <= c.sequence <= c.upper;
                && (answer == Err(InvalidCursor) <==> !wellFormed)
                && (answer == Err(EpochChanged) <==> wellFormed && c.epoch != s.restoreEpoch)
                && (answer == Err(CursorExpired) <==>
                    wellFormed && c.epoch == s.restoreEpoch && c.sequence + 1 < s.floorSequence)
                && (answer.Ok? <==> wellFormed && c.epoch == s.restoreEpoch && s.floorSequence <= c.sequence + 1))
  {
  }

  /**
    A cursor that was handed out is good, whatever happened since, exactly as long as no new epoch has
    begun and the floor has not passed it; an older epoch is named as the reason.
   */
  lemma HandedOutCursorIsServed(cfg: Config, s: Space, events: seq<Event>, categories: set<Category>,
                                cursor: Option<Cursor>, limit: int, later: int)
    requires Inv(s) && PossibleRun(cfg, s, events) && 1 <= later <= MAX_LIMIT
    requires Pull(s, categories, cursor, limit).Ok? && (cursor.Some? ==> cursor.value.sequence <= s.nextSequence)
    ensures var t, next := Run(cfg, s, events), Pull(s, categories, cursor, limit).value.nextCursor;
            && (Pull(t, categories, Some(next), later).Ok? <==>
                t.restoreEpoch == s.restoreEpoch && t.floorSequence <= next.sequence + 1)
            && (t.restoreEpoch != s.restoreEpoch ==> Pull(t, categories, Some(next), later) == Err(EpochChanged))
  {
    hide Inv, Grows, Slice, Run, PossibleRun, Pull;
    PageFacts(s, categories, cursor, limit);
    RunKeeps(cfg, s, events);
    SameScope(s, Run(cfg, s, events));
    RefusedExactly(Run(cfg, s, events), categories, Some(Pull(s, categories, cursor, limit).value.nextCursor), later);
  }

  lemma SameScope(s: Space, t: Space)
    requires Grows(s, t)
    ensures s.scope == t.scope
  {
  }

  // ---------------------------------------------------------------- a client following cursors

  /** One client's pulls, with the runs of other events in between. */
  datatype Session = Session(states: seq<Space>, gaps: seq<seq<Event>>, limits: seq<int>, pages: seq<Page>)

  ghost predicate Pulled(categories: set<Category>, s: Space, cursor: Option<Cursor>, limit: int, page: Page) {
    Pull(s, categories, cursor, limit) == Ok(page)
  }

  ghost function CursorFor(pages: seq<Page>, i: nat): Option<Cursor>
    requires i < |pages|
  {
    if i == 0 then None else Some(pages[i - 1].nextCursor)
  }

  ghost predicate Follows(cfg: Config, categories: set<Category>, x: Session) {
    && |x.states| == |x.gaps| == |x.limits| == |x.pages| >= 1
    && Inv(x.states[0])
    && (forall i :: 0 <= i < |x.states| ==>
          Pulled(categories, x.states[i], CursorFor(x.pages, i), x.limits[i], x.pages[i]))
    && (forall i :: 0 <= i < |x.states| - 1 ==>
          PossibleRun(cfg, x.states[i], x.gaps[i]) && Run(cfg, x.states[i], x.gaps[i]) == x.states[i + 1])
  }

  function Received(pages: seq<Page>): seq<Change> {
    if pages == [] then [] else Received(pages[..|pages| - 1]) + pages[|pages| - 1].changes
  }

  ghost function Before(x: Session): Session
    requires |x.states| == |x.gaps| == |x.limits| == |x.pages| >= 1
  {
    var n := |x.states| - 1;
    Session(x.states[..n], x.gaps[..n], x.limits[..n], x.pages[..n])
  }

  lemma BeforeFollows(cfg: Config, categories: set<Category>, x: Session)
    requires Follows(cfg, categories, x) && |x.states| > 1
    ensures Follows(cfg, categories, Before(x))
  {
    hide Inv, Run, PossibleRun, Pulled;
    var y := Before(x);
    forall i | 0 <= i < |y.states|
      ensures Pulled(categories, y.states[i], CursorFor(y.pages, i), y.limits[i], y.pages[i])
    {
      assert CursorFor(y.pages, i) == CursorFor(x.pages, i);
      assert Pulled(categories, x.states[i], CursorFor(x.pages, i), x.limits[i], x.pages[i]);
    }
  }

  /** Within one epoch, what lies at or below an old position never changes. */
  lemma OldSlicesStay(s: Space, t: Space, categories: set<Category>, lo: int, hi: int)
    requires Inv(s) && Inv(t) && Grows(s, t) && s.restoreEpoch == t.restoreEpoch && hi <= s.nextSequence
    ensures Slice(t.changes, categories, lo, hi) == Slice(s.changes, categories, lo, hi)
  {
    hide Newest, Dense, Filed, Ordered, Described, ConflictsFiled, LedgerHonest;
    var n := |s.changes|;
    var more := t.changes[n..];
    assert t.changes == s.changes + more;
    forall i | 0 <= i < |more| ensures hi < more[i].sequence {
      assert more[i] == t.changes[n + i];
    }
    SliceOfPrefix(s.changes, more, categories, lo, hi);
  }

  lemma {:induction false} GapKeeps(cfg: Config, categories: set<Category>, x: Session, i: int)
    requires Follows(cfg, categories, x) && 0 <= i < |x.states|
    ensures Inv(x.states[i])
    ensures i > 0 ==> Grows(x.states[i - 1], x.states[i])
    decreases i
  {
    hide Inv, Grows, Run, PossibleRun, Pull;
    if i > 0 {
      GapKeeps(cfg, categories, x, i - 1);
      RunKeeps(cfg, x.states[i - 1], x.gaps[i - 1]);
    }
  }

  /**
    Gap-free and exactly once: whatever happens between the pages, and whatever the limits, the
    pages put together are the selected log up to the cursor, in order and without repetition.
   */
  lemma {:induction false} PullIsGapFree(cfg: Config, categories: set<Category>, x: Session)
    requires Follows(cfg, categories, x)
    ensures var t, cursor := x.states[|x.states| - 1], x.pages[|x.pages| - 1].nextCursor;
            && Received(x.pages) == Slice(t.changes, categories, 0, cursor.sequence)
            && Increasing(Received(x.pages))
            && 0 <= cursor.sequence <= cursor.upper <= t.nextSequence
            && cursor.epoch == t.restoreEpoch
    decreases |x.states|
  {
    hide Inv, Grows, Run, PossibleRun, Pull, Slice, Increasing, Position;
    var n := |x.states| - 1;
    var t := x.states[n];
    GapKeeps(cfg, categories, x, n);
    DenseIsIncreasing(t);
    assert Pulled(categories, t, CursorFor(x.pages, n), x.limits[n], x.pages[n]);
    PageFacts(t, categories, CursorFor(x.pages, n), x.limits[n]);
    var to := x.pages[n].nextCursor.sequence;
    if n == 0 {
      assert x.pages == [x.pages[0]];
      assert Received(x.pages[..0]) == [];
    } else {
      BeforeFollows(cfg, categories, x);
      PullIsGapFree(cfg, categories, Before(x));
      var s, from := x.states[n - 1], x.pages[n - 1].nextCursor.sequence;
      assert s.nextSequence <= t.nextSequence by { GrowsParts(s, t); }
      GapKeeps(cfg, categories, x, n - 1);
      OldSlicesStay(s, t, categories, 0, from);
      SliceSplits(t.changes, categories, 0, from, to);
    }
    SliceFacts(t.changes, categories, 0, to);
  }

  lemma GrowsParts(s: Space, t: Space)
    requires Grows(s, t)
    ensures s.nextSequence <= t.nextSequence
  {
  }

  /** The window of a cursor was opened at one of the client's own requests. */
  lemma {:induction false} WindowWasOpened(cfg: Config, categories: set<Category>, x: Session) returns (j: nat)
    requires Follows(cfg, categories, x)
    ensures j < |x.states| && x.states[j].nextSequence == x.pages[|x.pages| - 1].nextCursor.upper
    decreases |x.states|
  {
    hide Inv, Run, PossibleRun, Pull, Position;
    var n := |x.states| - 1;
    GapKeeps(cfg, categories, x, n);
    assert Pulled(categories, x.states[n], CursorFor(x.pages, n), x.limits[n], x.pages[n]);
    PageFacts(x.states[n], categories, CursorFor(x.pages, n), x.limits[n]);
    if n == 0 || x.pages[n - 1].nextCursor.sequence == x.pages[n - 1].nextCursor.upper {
      j := n;
    } else {
      BeforeFollows(cfg, categories, x);
      j := WindowWasOpened(cfg, categories, Before(x));
    }
  }

  /** All states of a session are in one epoch, and each extends the earlier ones. */
  lemma {:induction false} SessionStates(cfg: Config, categories: set<Category>, x: Session, start: Records, i: nat,
                                         j: nat)
    requires Follows(cfg, categories, x) && i <= j < |x.states|
    ensures x.states[j].restoreEpoch == x.states[i].restoreEpoch && Grows(x.states[i], x.states[j])
    ensures Replays(start, x.states[i]) ==> Replays(start, x.states[j])
    decreases j
  {
    hide Inv, Run, PossibleRun, Pull, Position, Replays;
    GapKeeps(cfg, categories, x, j);
    if i < j {
      SessionStates(cfg, categories, x, start, i, j - 1);
      GapKeeps(cfg, categories, x, j - 1);
      assert Pulled(categories, x.states[j], CursorFor(x.pages, j), x.limits[j], x.pages[j]);
      assert Pulled(categories, x.states[j - 1], CursorFor(x.pages, j - 1), x.limits[j - 1], x.pages[j - 1]);
      PageFacts(x.states[j], categories, CursorFor(x.pages, j), x.limits[j]);
      PageFacts(x.states[j - 1], categories, CursorFor(x.pages, j - 1), x.limits[j - 1]);
      if Replays(start, x.states[i]) {
        SameEpochReplays(cfg, x.states[j - 1], x.gaps[j - 1], start);
      }
      GrowsTransitive(x.states[i], x.states[j - 1], x.states[j]);
    }
  }

  /** Deletes between the pages name the registered categories. */
  ghost predicate RegistryDeletes(x: Session) {
    forall i, e :: 0 <= i < |x.gaps| && e in x.gaps[i] ==> RegistryDelete(e)
  }

  lemma {:induction false} SessionSummarised(cfg: Config, categories: set<Category>, x: Session, i: nat)
    requires Follows(cfg, categories, x) && i < |x.states| && Summarised(x.states[0]) && RegistryDeletes(x)
    ensures Summarised(x.states[i])
    decreases i
  {
    hide Inv, Run, PossibleRun, Pull, Summarised;
    if i > 0 {
      SessionSummarised(cfg, categories, x, i - 1);
      GapKeeps(cfg, categories, x, i - 1);
      RunSummarises(cfg, x.states[i - 1], x.gaps[i - 1]);
    }
  }

  lemma SelectedAll(records: Records)
    ensures Selected(records, {}) == records
  {
  }

  /** Replaying the part of a log that a filter selects gives the selected records. */
  lemma FilteredRecords(s: Space, start: Records, categories: set<Category>)
    requires Inv(s) && Replays(start, s)
    requires categories == {} || (Registered(start) && RegisteredVersions(s.versions))
    ensures Replay(Selected(start, categories), Slice(s.changes, categories, 0, s.nextSequence)) ==
            Selected(s.records, categories)
  {
    hide Inv, Slice, Replay, Registered, RegisteredVersions, RegisteredLog, Selected;
    LogFacts(s);
    WholeSlice(s.changes, 0, s.nextSequence);
    if categories == {} {
      SelectedAll(start);
      SelectedAll(s.records);
    } else {
      FilteredReplay(start, s.changes, categories, 0, s.nextSequence);
    }
  }

  /** What a drained session received is the whole selected log at the request that opened its window. */
  lemma DrainedSlice(cfg: Config, categories: set<Category>, x: Session, start: Records) returns (j: nat)
    requires Follows(cfg, categories, x) && Replays(start, x.states[0]) && !x.pages[|x.pages| - 1].hasMore
    ensures j < |x.states| && x.states[j].nextSequence == x.pages[|x.pages| - 1].nextCursor.sequence
    ensures Inv(x.states[j]) && Replays(start, x.states[j])
    ensures Received(x.pages) == Slice(x.states[j].changes, categories, 0, x.states[j].nextSequence)
  {
    hide Inv, Grows, Run, PossibleRun, Pull, Slice, Increasing, Position, Replays;
    var n := |x.states| - 1;
    var t, upper := x.states[n], x.pages[n].nextCursor.upper;
    j := WindowWasOpened(cfg, categories, x);
    GapKeeps(cfg, categories, x, n);
    GapKeeps(cfg, categories, x, j);
    PullIsGapFree(cfg, categories, x);
    assert Pulled(categories, t, CursorFor(x.pages, n), x.limits[n], x.pages[n]);
    PageFacts(t, categories, CursorFor(x.pages, n), x.limits[n]);
    SessionStates(cfg, categories, x, start, 0, j);
    SessionStates(cfg, categories, x, start, j, n);
    OldSlicesStay(x.states[j], t, categories, 0, upper);
  }

  /**
    A client that held the selected part of what the epoch began with, and drained a window, holds
    exactly the selected records the server had at the request that opened the window, tombstones
    included, although the server has moved on since. With a filter this needs deletes that name the
    registered categories.
   */
  lemma DrainedReplica(cfg: Config, categories: set<Category>, x: Session, start: Records) returns (j: nat)
    requires Follows(cfg, categories, x) && Replays(start, x.states[0]) && !x.pages[|x.pages| - 1].hasMore
    requires categories == {} || (Registered(start) && Summarised(x.states[0]) && RegistryDeletes(x))
    ensures j < |x.states| && x.states[j].nextSequence == x.pages[|x.pages| - 1].nextCursor.sequence
    ensures Replay(Selected(start, categories), Received(x.pages)) == Selected(x.states[j].records, categories)
  {
    hide Inv, Follows, Slice, Replay, Registered, Selected, RegistryDeletes, SummariesRight, RegisteredVersions,
         Replays;
    j := DrainedSlice(cfg, categories, x, start);
    if categories != {} {
      SessionSummarised(cfg, categories, x, j);
    }
    FilteredRecords(x.states[j], start, categories);
  }

  // ---------------------------------------------------------------- a client that starts with nothing

  /** What is left of the log bears records of exactly those entities, under the categories, that are selected. */
  ghost predicate LogSuffices(s: Space, categories: set<Category>) {
    forall key :: key in Selected(s.records, categories) <==> Bears(s.changes, categories, key)
  }

  lemma KeyFromNothing(s: Space, start: Records, categories: set<Category>, key: Key)
    requires Inv(s) && Replays(start, s)
    ensures var replica := Replay(map[], Slice(s.changes, categories, 0, s.nextSequence));
            && (key in replica <==> Bears(s.changes, categories, key))
            && (key in replica && key in s.records && Selects(categories, s.records[key].category) ==>
                replica[key] == s.records[key])
  {
    LogFacts(s);
    hide Inv, Slice, Replay, LastOf, Selects, Bears;
    var part := Slice(s.changes, categories, 0, s.nextSequence);
    ReplayAt(map[], part, key);
    ReplayAt(start, s.changes, key);
    LastOfSlice(s.changes, categories, 0, s.nextSequence, key);
  }

  /** Replaying a selected log on nothing gives the selected records exactly when the log suffices. */
  lemma FromNothingExactly(s: Space, start: Records, categories: set<Category>)
    requires Inv(s) && Replays(start, s)
    ensures Replay(map[], Slice(s.changes, categories, 0, s.nextSequence)) == Selected(s.records, categories) <==>
            LogSuffices(s, categories)
  {
    hide Inv, Slice, Replay, Replays, LastOf, Selects, Bears;
    var replica := Replay(map[], Slice(s.changes, categories, 0, s.nextSequence));
    forall key
      ensures key in replica <==> Bears(s.changes, categories, key)
      ensures key in replica && key in s.records && Selects(categories, s.records[key].category) ==>
                replica[key] == s.records[key]
    {
      KeyFromNothing(s, start, categories, key);
    }
  }

  lemma KeyOfRecords(s: Space, start: Records, key: Key)
    requires Inv(s) && Replays(start, s)
    ensures key in s.records <==> key in start || Bears(s.changes, {}, key)
  {
    LogFacts(s);
    hide Inv, Slice, Replay, LastOf, Selects, Bears;
    WholeSlice(s.changes, 0, s.nextSequence);
    ReplayAt(start, s.changes, key);
    LastOfSlice(s.changes, {}, 0, s.nextSequence, key);
  }

  /** Without a filter the log suffices exactly when it bears a record of everything the epoch began with. */
  lemma UnfilteredLogSuffices(s: Space, start: Records)
    requires Inv(s) && Replays(start, s)
    ensures LogSuffices(s, {}) <==> forall key :: key in start ==> Bears(s.changes, {}, key)
  {
    SelectedAll(s.records);
    hide Inv, Replays, Bears, Selected;
    forall key ensures key in s.records <==> key in start || Bears(s.changes, {}, key) {
      KeyOfRecords(s, start, key);
    }
  }

  /**
    Exactly when a client that starts with nothing, asks without a cursor and follows the cursors until
    its window is drained holds what the server had selected for it: when the log at the request that
    opened the window suffices. After a new epoch, whose log is empty, it does only if nothing is
    selected.
   */
  lemma DrainedFromNothingExactly(cfg: Config, categories: set<Category>, x: Session, start: Records) returns (j: nat)
    requires Follows(cfg, categories, x) && Replays(start, x.states[0]) && !x.pages[|x.pages| - 1].hasMore
    ensures j < |x.states| && x.states[j].nextSequence == x.pages[|x.pages| - 1].nextCursor.sequence
    ensures Replay(map[], Received(x.pages)) == Selected(x.states[j].records, categories) <==>
            LogSuffices(x.states[j], categories)
  {
    hide Inv, Follows, Slice, Replay, Selected, Replays, LogSuffices;
    j := DrainedSlice(cfg, categories, x, start);
    FromNothingExactly(x.states[j], start, categories);
  }
}
