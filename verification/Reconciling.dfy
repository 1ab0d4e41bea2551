/**
  Reconcile pages walk over the records in listing order and resume by comparing joined keys. The
  order of the listing is an input here, because the two comparisons are different functions: a
  locale-aware one sorts the listing and a code-unit one resumes it.
 */
module Reconciling {
  import opened Wrappers
  import opened Schema
  import opened CodeUnits
  import opened Replication
  import opened Runs

  datatype KnownRow = KnownRow(revision: nat, deleted: bool)
  type Known = map<Key, KnownRow>

  datatype PageToken = PageToken(spaceId: Id, epoch: nat, categories: set<Category>, known: Known, upper: nat,
                                 afterKey: string)

  datatype Page = Page(records: seq<Record>, token: Option<PageToken>, hasMore: bool, restoreEpoch: nat)

  datatype ReconcileError = InvalidRequest | InvalidPageToken | EpochChanged

  const MAX_LIMIT := 500

  function Joined(key: Key): string {
    Join(NameOf(key.entityType), ':', key.entityId)
  }

  predicate Differs(known: Known, r: Record) {
    r.key !in known || known[r.key].revision != r.revision || known[r.key].deleted != r.deleted
  }

  predicate Wanted(r: Record, known: Known, after: string, upper: nat) {
    r.sequence <= upper && Less(after, Joined(r.key)) && Differs(known, r)
  }

  function Differences(rows: seq<Record>, known: Known, after: string, upper: nat): seq<Record> {
    if rows == [] then []
    else (if Wanted(rows[0], known, after, upper) then [rows[0]] else []) + Differences(rows[1..], known, after, upper)
  }

  function FirstPage(rows: seq<Record>, known: Known, after: string, upper: nat, limit: nat): seq<Record> {
    var all := Differences(rows, known, after, upper);
    if |all| <= limit then all else all[..limit]
  }

  function AfterKey(page: seq<Record>, after: string): string {
    if page == [] then after else Joined(page[|page| - 1].key)
  }

  /** The listing of a selection holds each selected record once. */
  ghost predicate Lists(s: Space, categories: set<Category>, rows: seq<Record>) {
    && (forall i, j :: 0 <= i < j < |rows| ==> rows[i].key != rows[j].key)
    && (forall r :: r in rows <==> r.key in s.records && s.records[r.key] == r && Selects(categories, r.category))
  }

  /** Where a request starts: the frozen upper bound and the key to resume after. */
  function Start(s: Space, categories: set<Category>, known: Known, token: Option<PageToken>)
    : Result<(nat, string), ReconcileError>
  {
    match token
    case None => Ok((s.nextSequence, ""))
    case Some(t) =>
      if t.epoch != s.restoreEpoch then Err(EpochChanged)
      else if t.spaceId != s.scope.spaceId || t.categories != categories || t.known != known then Err(InvalidPageToken)
      else Ok((t.upper, t.afterKey))
  }

  function Reconcile(s: Space, rows: seq<Record>, categories: set<Category>, known: Known, token: Option<PageToken>,
                     limit: int): Result<Page, ReconcileError> {
    if limit < 1 || MAX_LIMIT < limit then Err(InvalidRequest)
    else
      match Start(s, categories, known, token)
      case Err(e) => Err(e)
      case Ok((upper, after)) =>
        var page := FirstPage(rows, known, after, upper, limit);
        var hasMore := |Differences(rows, known, after, upper)| > limit;
        Ok(Page(page,
                if hasMore then
                   Some(PageToken(s.scope.spaceId, s.restoreEpoch, categories, known, upper, AfterKey(page, after)))
                     else None,
                hasMore, s.restoreEpoch))
  }

  /** Which requests are refused, and with what, and what the others start from. */
  lemma RequestsExactly(s: Space, rows: seq<Record>, categories: set<Category>, known: Known, token: Option<PageToken>,
                        limit: int)
    ensures var answer := Reconcile(s, rows, categories, known, token, limit);
            && (answer == Err(InvalidRequest) <==> limit < 1 || 500 < limit)
            && (answer == Err(EpochChanged) <==>
                1 <= limit <= 500 && token.Some? && token.value.epoch != s.restoreEpoch)
            && (answer == Err(InvalidPageToken) <==>
                && 1 <= limit <= 500 && token.Some? && token.value.epoch == s.restoreEpoch
                && (token.value.spaceId != s.scope.spaceId || token.value.categories != categories
                    || token.value.known != known))
            && (answer.Ok? ==>
                  var page := answer.value;
                  var upper := if token.Some? then token.value.upper else s.nextSequence;
                  var after := if token.Some? then token.value.afterKey else "";
                  && page.records == FirstPage(rows, known, after, upper, limit) && page.restoreEpoch == s.restoreEpoch
                  && (page.hasMore <==> page.records != Differences(rows, known, after, upper))
                  && page.token ==
                     if !page.hasMore then None
                     else Some(PageToken(s.scope.spaceId, s.restoreEpoch, categories, known, upper,
                                         Joined(page.records[limit - 1].key))))
  {
  }

  // ---------------------------------------------------------------- joined keys

  lemma NamesAreLetters(t: EntityType)
    ensures forall c :: c in NameOf(t) ==> ':' < c
  {
    if t in FIRST_TYPES {
      FirstNamesAreLetters(t);
    } else {
      assert forall i :: 0 <= i < |NameOf(t)| ==> ':' < NameOf(t)[i];
    }
  }

  const FIRST_TYPES := {Todo, TodoCategory, Note, NoteTaxon, Link, LinkGroup, Preference, ClipboardEntry}

  lemma FirstNamesAreLetters(t: EntityType)
    requires t in FIRST_TYPES
    ensures forall c :: c in NameOf(t) ==> ':' < c
  {
    assert forall i :: 0 <= i < |NameOf(t)| ==> ':' < NameOf(t)[i];
  }

  lemma {:induction false} NamesDiffer(t: EntityType, u: EntityType)
    requires NameOf(t) == NameOf(u)
    ensures t == u
  {
    var a, b := NameOf(t), NameOf(u);
    assert |a| == |b| && a[0] == b[0] && a[|a| - 1] == b[|b| - 1] && a[2] == b[2];
  }

  /**
    Joined keys compare as pairs of type name and identifier, because the separator sorts below
    every letter of a type name; in particular they identify the entity.
   */
  lemma JoinedKeysComparePairwise(k: Key, l: Key)
    ensures Less(Joined(k), Joined(l)) <==>
            Less(NameOf(k.entityType), NameOf(l.entityType))
              || (k.entityType == l.entityType && Less(k.entityId, l.entityId))
    ensures Joined(k) == Joined(l) <==> k == l
  {
    NamesAreLetters(k.entityType);
    NamesAreLetters(l.entityType);
    JoinedOrder(NameOf(k.entityType), k.entityId, NameOf(l.entityType), l.entityId, ':');
    if NameOf(k.entityType) == NameOf(l.entityType) {
      NamesDiffer(k.entityType, l.entityType);
    }
  }

  // ---------------------------------------------------------------- one page

  /** The listing order is the order in which pages resume. */
  ghost predicate CodeUnitSorted(rows: seq<Record>) {
    forall i, j :: 0 <= i < j < |rows| ==> Less(Joined(rows[i].key), Joined(rows[j].key))
  }

  predicate AtMost(a: string, b: string) {
    a == b || Less(a, b)
  }

  lemma {:induction false} DifferencesFacts(rows: seq<Record>, known: Known, after: string, upper: nat)
    ensures forall r :: r in Differences(rows, known, after, upper) <==> r in rows && Wanted(r, known, after, upper)
    ensures CodeUnitSorted(rows) ==> CodeUnitSorted(Differences(rows, known, after, upper))
    decreases |rows|
  {
    hide Wanted, Joined;
    if rows != [] {
      DifferencesFacts(rows[1..], known, after, upper);
      var rest := Differences(rows[1..], known, after, upper);
      if CodeUnitSorted(rows) {
        forall r | r in rest ensures Less(Joined(rows[0].key), Joined(r.key)) {
          var i :| 0 <= i < |rows[1..]| && rows[1..][i] == r;
          assert rows[i + 1] == r;
        }
        assert CodeUnitSorted(rows[1..]);
      }
    }
  }

  /** A row is wanted when the client does not know it at its revision and with its deletion flag. */
  lemma WantedExactly(r: Record, known: Known, after: string, upper: nat)
    ensures Wanted(r, known, after, upper) <==>
            && r.sequence <= upper && Less(after, Joined(r.key))
            && !(r.key in known && known[r.key] == KnownRow(r.revision, r.deleted))
  {
  }

  /**
    A page of a sorted listing takes every row up to the key it ends on that is not newer than the
    bound and that the client does not know as it is, so that what is left is exactly what lies beyond
    that key; a page that is the last one leaves nothing.
   */
  lemma PageTakesAll(rows: seq<Record>, known: Known, after: string, upper: nat, limit: nat)
    requires CodeUnitSorted(rows) && 1 <= limit
    ensures var page := FirstPage(rows, known, after, upper, limit);
            var hasMore := |Differences(rows, known, after, upper)| > limit;
            && CodeUnitSorted(page) && (hasMore ==> |page| == limit)
            && (forall r :: r in page ==>
                && r in rows && r.sequence <= upper && Less(after, Joined(r.key))
                && AtMost(Joined(r.key), AfterKey(page, after))
                && !(r.key in known && known[r.key] == KnownRow(r.revision, r.deleted)))
            && (forall r :: r in rows && r.sequence <= upper && Less(after, Joined(r.key)) ==>
                || (r.key in known && known[r.key] == KnownRow(r.revision, r.deleted))
                || r in page || (hasMore && Less(AfterKey(page, after), Joined(r.key))))
  {
    PageTakesWanted(rows, known, after, upper, limit);
    forall r ensures Wanted(r, known, after, upper) <==>
                     && r.sequence <= upper && Less(after, Joined(r.key))
                     && !(r.key in known && known[r.key] == KnownRow(r.revision, r.deleted))
    {
      WantedExactly(r, known, after, upper);
    }
    hide Wanted, Joined, Less, Differences, FirstPage, CodeUnitSorted, AfterKey, AtMost;
  }

  lemma PageTakesWanted(rows: seq<Record>, known: Known, after: string, upper: nat, limit: nat)
    requires CodeUnitSorted(rows) && 1 <= limit
    ensures var page := FirstPage(rows, known, after, upper, limit);
            var hasMore := |Differences(rows, known, after, upper)| > limit;
            && CodeUnitSorted(page) && (hasMore ==> |page| == limit)
            && (forall r :: r in page ==>
                r in rows && Wanted(r, known, after, upper) && AtMost(Joined(r.key), AfterKey(page, after)))
            && (forall r :: r in rows && Wanted(r, known, after, upper) ==>
                  r in page || (hasMore && Less(AfterKey(page, after), Joined(r.key))))
  {
    hide Wanted, Joined, Less, Differences;
    DifferencesFacts(rows, known, after, upper);
    var all, page := Differences(rows, known, after, upper), FirstPage(rows, known, after, upper, limit);
    forall r | r in page ensures AtMost(Joined(r.key), AfterKey(page, after)) && r in all {
      var i :| 0 <= i < |page| && page[i] == r;
      assert page[i] == all[i];
    }
    forall k | 0 <= k < |page| ensures all[k] in page {
      assert all[k] == page[k];
    }
    forall r | r in all && r !in page ensures |all| > limit && Less(AfterKey(page, after), Joined(r.key)) {
      var i :| 0 <= i < |all| && all[i] == r;
      assert page[limit - 1] == all[limit - 1];
    }
  }

  // ---------------------------------------------------------------- the order that is needed

  /** Everything a client gets by following the pages of one listing. */
  function Chain(rows: seq<Record>, known: Known, after: string, upper: nat, limit: nat): seq<Record>
    requires 1 <= limit
    decreases |Differences(rows, known, after, upper)|
  {
    var page := FirstPage(rows, known, after, upper, limit);
    if |Differences(rows, known, after, upper)| <= limit then page
    else
      FewerLeft(rows, known, after, upper, limit);
      page + Chain(rows, known, AfterKey(page, after), upper, limit)
  }

  lemma FewerLeft(rows: seq<Record>, known: Known, after: string, upper: nat, limit: nat)
    requires 1 <= limit < |Differences(rows, known, after, upper)|
    ensures var after' := AfterKey(FirstPage(rows, known, after, upper, limit), after);
            |Differences(rows, known, after', upper)| < |Differences(rows, known, after, upper)|
  {
    var all := Differences(rows, known, after, upper);
    DifferencesFacts(rows, known, after, upper);
    hide Differences, Joined, Differs;
    var last := all[limit - 1];
    assert last in all && Less(after, Joined(last.key));
    FewerBeyond(rows, known, after, Joined(last.key), upper, last);
  }

  lemma {:induction false} FewerBeyond(rows: seq<Record>, known: Known, after: string, beyond: string, upper: nat,
                                       last: Record)
    requires Less(after, beyond)
    ensures |Differences(rows, known, beyond, upper)| <= |Differences(rows, known, after, upper)|
    ensures last in rows && Joined(last.key) == beyond && Wanted(last, known, after, upper) ==>
            |Differences(rows, known, beyond, upper)| < |Differences(rows, known, after, upper)|
    decreases |rows|
  {
    hide Joined, Less, Differs;
    if rows != [] {
      FewerBeyond(rows[1..], known, after, beyond, upper, last);
      if Wanted(rows[0], known, beyond, upper) {
        LessTransitive(after, beyond, Joined(rows[0].key));
      }
      LessIrreflexive(beyond);
    }
  }

  /** With a sorted listing nothing that is wanted is left out, for any page size. */
  lemma {:induction false} SortedChainIsComplete(rows: seq<Record>, known: Known, after: string, upper: nat, limit: nat)
    requires CodeUnitSorted(rows) && 1 <= limit
    ensures forall r :: r in rows && Wanted(r, known, after, upper) ==> r in Chain(rows, known, after, upper, limit)
    decreases |Differences(rows, known, after, upper)|
  {
    hide Joined, CodeUnitSorted, Differs;
    var page := FirstPage(rows, known, after, upper, limit);
    PageTakesWanted(rows, known, after, upper, limit);
    if |Differences(rows, known, after, upper)| > limit {
      FewerLeft(rows, known, after, upper, limit);
      SortedChainIsComplete(rows, known, AfterKey(page, after), upper, limit);
    }
  }

  ghost predicate CompleteFor(rows: seq<Record>, known: Known, upper: nat, limit: nat)
    requires 1 <= limit
  {
    forall r :: r in rows && Wanted(r, known, "", upper) ==> r in Chain(rows, known, "", upper, limit)
  }

  /**
    Exactly when reconcile misses nothing: following the pages returns every row that the client does not
    know as it is, whatever it knows and for every page size, if and only if the listing is in the
    code-unit order of the joined keys.
   */
  lemma CompleteExactlyWhenSorted(rows: seq<Record>, upper: nat)
    requires forall i, j :: 0 <= i < j < |rows| ==> rows[i].key != rows[j].key
    requires forall r :: r in rows ==> r.sequence <= upper
    ensures (forall known: Known, limit: nat, r :: 1 <= limit && r in rows ==>
               r in Chain(rows, known, "", upper, limit)
                 || (r.key in known && known[r.key] == KnownRow(r.revision, r.deleted)))
            <==> CodeUnitSorted(rows)
  {
    if CodeUnitSorted(rows) {
      forall known: Known, limit: nat, r | 1 <= limit && r in rows
        ensures r in Chain(rows, known, "", upper, limit)
                || (r.key in known && known[r.key] == KnownRow(r.revision, r.deleted))
      {
        hide Chain, CodeUnitSorted, Joined;
        SortedChainIsComplete(rows, known, "", upper, limit);
        CompleteForExactly(rows, known, upper, limit);
      }
    } else {
      var i, j :| 0 <= i < j < |rows| && !Less(Joined(rows[i].key), Joined(rows[j].key));
      hide Chain, Less, Joined, CompleteFor;
      var known := UnsortedLosesRow(rows, i, j, upper);
      CompleteForExactly(rows, known, upper, 1);
    }
  }

  lemma CompleteForExactly(rows: seq<Record>, known: Known, upper: nat, limit: nat)
    requires 1 <= limit && forall r :: r in rows ==> r.sequence <= upper
    ensures CompleteFor(rows, known, upper, limit) <==>
            forall r :: r in rows ==>
              r in Chain(rows, known, "", upper, limit)
              || (r.key in known && known[r.key] == KnownRow(r.revision, r.deleted))
  {
    hide Chain, Joined;
    forall r | r in rows
      ensures Wanted(r, known, "", upper) <==> !(r.key in known && known[r.key] == KnownRow(r.revision, r.deleted))
    {
      WantedExactly(r, known, "", upper);
      JoinedIsNotEmpty(r.key);
    }
  }

  lemma JoinedIsNotEmpty(key: Key)
    ensures Less("", Joined(key))
  {
  }

  /** All rows but two are known as they are. */
  function KnownBut(rows: seq<Record>, a: Key, b: Key): Known {
    if rows == [] then map[]
    else
      var rest := KnownBut(rows[1..], a, b);
      if rows[0].key == a || rows[0].key == b then rest - {rows[0].key}
      else rest[rows[0].key := KnownRow(rows[0].revision, rows[0].deleted)]
  }

  ghost predicate DistinctKeys(rows: seq<Record>) {
    forall i, j :: 0 <= i < j < |rows| ==> rows[i].key != rows[j].key
  }

  lemma {:induction false} KnownButFacts(rows: seq<Record>, a: Key, b: Key)
    requires DistinctKeys(rows)
    ensures forall i :: 0 <= i < |rows| ==>
              (Differs(KnownBut(rows, a, b), rows[i]) <==> rows[i].key == a || rows[i].key == b)
    decreases |rows|
  {
    if rows != [] {
      KnownButFacts(rows[1..], a, b);
      forall i | 0 < i < |rows|
        ensures Differs(KnownBut(rows, a, b), rows[i]) <==> rows[i].key == a || rows[i].key == b
      {
        assert rows[i] == rows[1..][i - 1] && rows[0].key != rows[i].key;
      }
    }
  }

  lemma {:induction false} DifferencesNone(rows: seq<Record>, known: Known, after: string, upper: nat)
    requires forall i :: 0 <= i < |rows| ==> !Wanted(rows[i], known, after, upper)
    ensures Differences(rows, known, after, upper) == []
    decreases |rows|
  {
    if rows != [] {
      DifferencesNone(rows[1..], known, after, upper);
    }
  }

  lemma {:induction false} SkipUnwanted(rows: seq<Record>, i: nat, known: Known, after: string, upper: nat)
    requires i <= |rows| && forall k :: 0 <= k < i ==> !Wanted(rows[k], known, after, upper)
    ensures Differences(rows, known, after, upper) == Differences(rows[i..], known, after, upper)
    decreases i
  {
    hide Wanted;
    if i == 0 {
      assert rows[0..] == rows;
    } else {
      SkipUnwanted(rows[1..], i - 1, known, after, upper);
      assert rows[1..][i - 1..] == rows[i..];
    }
  }

  lemma OnlyTwoWanted(rows: seq<Record>, i: nat, j: nat, known: Known, after: string, upper: nat)
    requires i < j < |rows|
    requires forall k :: 0 <= k < |rows| ==> (Wanted(rows[k], known, after, upper) <==> k == i || k == j)
    ensures Differences(rows, known, after, upper) == [rows[i], rows[j]]
  {
    hide Wanted;
    SkipUnwanted(rows, i, known, after, upper);
    assert rows[i..][1..] == rows[i + 1..];
    SkipUnwanted(rows[i + 1..], j - i - 1, known, after, upper);
    assert rows[i + 1..][j - i - 1..] == rows[j..];
    assert rows[j..][1..] == rows[j + 1..];
    DifferencesNone(rows[j + 1..], known, after, upper);
  }

  /** If a row listed earlier has the greater key, one-row pages skip the other row. */
  lemma UnsortedLosesRow(rows: seq<Record>, i: nat, j: nat, upper: nat) returns (known: Known)
    requires DistinctKeys(rows) && forall r :: r in rows ==> r.sequence <= upper
    requires i < j < |rows| && !Less(Joined(rows[i].key), Joined(rows[j].key))
    ensures !CompleteFor(rows, known, upper, 1)
  {
    var a, b := rows[i], rows[j];
    known := KnownBut(rows, a.key, b.key);
    KnownButFacts(rows, a.key, b.key);
    assert a in rows && b in rows;
    assert forall k :: 0 <= k < |rows| ==> (Wanted(rows[k], known, "", upper) <==> k == i || k == j);
    OnlyTwoWanted(rows, i, j, known, "", upper);
    LessIrreflexive(Joined(a.key));
    DifferencesNone(rows, known, Joined(a.key), upper);
    hide Differences, Joined, Differs;
    assert FirstPage(rows, known, "", upper, 1) == [a];
    assert Chain(rows, known, Joined(a.key), upper, 1) == [];
    assert !CompleteFor(rows, known, upper, 1);
  }

  // ---------------------------------------------------------------- a client walking the pages

  /** One client's pages, with the runs of other events in between. */
  datatype Walk = Walk(states: seq<Space>, gaps: seq<seq<Event>>, listings: seq<seq<Record>>, limits: seq<int>,
                       pages: seq<Page>)

  ghost predicate Answered(s: Space, rows: seq<Record>, categories: set<Category>, known: Known,
                           token: Option<PageToken>, limit: int, page: Page) {
    Reconcile(s, rows, categories, known, token, limit) == Ok(page)
  }

  ghost function TokenFor(pages: seq<Page>, i: nat): Option<PageToken>
    requires i < |pages|
  {
    if i == 0 then None else pages[i - 1].token
  }

  ghost predicate Walks(cfg: Config, categories: set<Category>, known: Known, x: Walk) {
    && |x.states| == |x.gaps| == |x.listings| == |x.limits| == |x.pages| >= 1
    && Inv(x.states[0])
    && (forall i :: 0 <= i < |x.states| ==>
          && Lists(x.states[i], categories, x.listings[i]) && CodeUnitSorted(x.listings[i])
          && Answered(x.states[i], x.listings[i], categories, known, TokenFor(x.pages, i), x.limits[i], x.pages[i]))
    && (forall i :: 0 <= i < |x.states| - 1 ==>
          && x.pages[i].hasMore
          && PossibleRun(cfg, x.states[i], x.gaps[i]) && Run(cfg, x.states[i], x.gaps[i]) == x.states[i + 1])
  }

  function Returned(pages: seq<Page>): seq<Record> {
    if pages == [] then [] else Returned(pages[..|pages| - 1]) + pages[|pages| - 1].records
  }

  ghost function Before(x: Walk): Walk
    requires |x.states| == |x.gaps| == |x.listings| == |x.limits| == |x.pages| >= 1
  {
    var n := |x.states| - 1;
    Walk(x.states[..n], x.gaps[..n], x.listings[..n], x.limits[..n], x.pages[..n])
  }

  lemma BeforeWalks(cfg: Config, categories: set<Category>, known: Known, x: Walk)
    requires Walks(cfg, categories, known, x) && |x.states| > 1
    ensures Walks(cfg, categories, known, Before(x))
  {
    hide Inv, Run, PossibleRun, Answered, Lists, CodeUnitSorted;
    var y := Before(x);
    forall i | 0 <= i < |y.states|
      ensures Answered(y.states[i], y.listings[i], categories, known, TokenFor(y.pages, i), y.limits[i], y.pages[i])
    {
      assert TokenFor(y.pages, i) == TokenFor(x.pages, i);
      assert Answered(x.states[i], x.listings[i], categories, known, TokenFor(x.pages, i), x.limits[i], x.pages[i]);
    }
  }

  lemma {:induction false} WalkKeeps(cfg: Config, categories: set<Category>, known: Known, x: Walk, i: nat)
    requires Walks(cfg, categories, known, x) && i < |x.states|
    ensures Inv(x.states[i]) && (i > 0 ==> Grows(x.states[i - 1], x.states[i]))
    decreases i
  {
    hide Inv, Run, PossibleRun, Answered, Lists, CodeUnitSorted, Grows;
    if i > 0 {
      WalkKeeps(cfg, categories, known, x, i - 1);
      RunKeeps(cfg, x.states[i - 1], x.gaps[i - 1]);
    }
  }

  /** A record whose number was given out by the earlier state has not changed since. */
  lemma OldRecordsStay(s: Space, t: Space, key: Key)
    requires Inv(s) && Inv(t) && Grows(s, t) && key in t.records && t.records[key].sequence <= s.nextSequence
    ensures key in s.records && s.records[key] == t.records[key]
  {
    hide Ordered, Described, DenseLog, ConflictsFiled, LedgerHonest, ConflictsGrow, LedgerGrows;
    var v := VersionKey(key, t.records[key].revision);
    assert v in t.versions && v in s.versions;
    assert v.revision <= s.records[key].revision <= t.records[key].revision;
  }

  ghost function AfterFor(x: Walk, i: nat): string
    requires i < |x.pages|
  {
    if i == 0 || x.pages[i - 1].token.None? then "" else x.pages[i - 1].token.value.afterKey
  }

  /** What one answer says about its page and about where the next request starts. */
  lemma AnswerFacts(s: Space, rows: seq<Record>, categories: set<Category>, known: Known, token: Option<PageToken>,
                    limit: int, page: Page)
    requires Answered(s, rows, categories, known, token, limit, page)
    ensures 1 <= limit && Start(s, categories, known, token).Ok?
    ensures var (upper, after) := Start(s, categories, known, token).value;
            && page.records == FirstPage(rows, known, after, upper, limit)
            && page.hasMore == (|Differences(rows, known, after, upper)| > limit)
            && (page.hasMore ==> page.token.Some? && page.token.value.upper == upper)
  {
    hide Start, FirstPage, Differences;
  }

  /** A token that is taken at all names the bound and the key to go on from. */
  lemma StartFromToken(s: Space, categories: set<Category>, known: Known, token: PageToken)
    requires Start(s, categories, known, Some(token)).Ok?
    ensures Start(s, categories, known, Some(token)) == Ok((token.upper, token.afterKey))
  {
  }

  /** The upper bound of a walk is frozen at its first request. */
  lemma {:induction false} WalkStarts(cfg: Config, categories: set<Category>, known: Known, x: Walk, i: nat)
    requires Walks(cfg, categories, known, x) && i < |x.states|
    ensures Start(x.states[i], categories, known, TokenFor(x.pages, i)) ==
            Ok((x.states[0].nextSequence, AfterFor(x, i)))
    ensures x.pages[i].records == FirstPage(x.listings[i], known, AfterFor(x, i), x.states[0].nextSequence, x.limits[i])
    ensures x.pages[i].hasMore ==
            (|Differences(x.listings[i], known, AfterFor(x, i), x.states[0].nextSequence)| > x.limits[i])
    ensures 1 <= x.limits[i]
    ensures x.pages[i].hasMore ==>
              x.pages[i].token.Some? && x.pages[i].token.value.upper == x.states[0].nextSequence
    decreases i
  {
    hide Inv, Run, PossibleRun, Lists, CodeUnitSorted, Answered, FirstPage, Differences;
    AnswerOf(cfg, categories, known, x, i);
    AnswerFacts(x.states[i], x.listings[i], categories, known, TokenFor(x.pages, i), x.limits[i], x.pages[i]);
    if i > 0 {
      hide Walks, Start;
      WalkStarts(cfg, categories, known, x, i - 1);
      StartFromToken(x.states[i], categories, known, x.pages[i - 1].token.value);
    }
  }

  lemma AnswerOf(cfg: Config, categories: set<Category>, known: Known, x: Walk, i: nat)
    requires Walks(cfg, categories, known, x) && i < |x.states|
    ensures Answered(x.states[i], x.listings[i], categories, known, TokenFor(x.pages, i), x.limits[i], x.pages[i])
    ensures i > 0 ==> x.pages[i - 1].hasMore
  {
    hide Inv, Run, PossibleRun, Lists, CodeUnitSorted, Answered;
  }

  /** The key after which nothing has been returned yet. */
  ghost function End(x: Walk): string
    requires |x.pages| >= 1
  {
    AfterKey(x.pages[|x.pages| - 1].records, AfterFor(x, |x.pages| - 1))
  }

  lemma {:induction false} SortedConcat(a: seq<Record>, b: seq<Record>, middle: string)
    requires CodeUnitSorted(a) && CodeUnitSorted(b)
    requires forall r :: r in a ==> AtMost(Joined(r.key), middle)
    requires forall r :: r in b ==> Less(middle, Joined(r.key))
    ensures CodeUnitSorted(a + b)
  {
    hide Joined, Less;
    forall i, j | 0 <= i < j < |a + b| ensures Less(Joined((a + b)[i].key), Joined((a + b)[j].key)) {
      if i < |a| <= j {
        assert a[i] in a && b[j - |a|] in b;
        if Joined(a[i].key) != middle {
          LessTransitive(Joined(a[i].key), middle, Joined(b[j - |a|].key));
        }
      }
    }
  }

  lemma AtMostTransitive(a: string, b: string, c: string)
    requires AtMost(a, b) && AtMost(b, c)
    ensures AtMost(a, c)
  {
    if Less(a, b) && Less(b, c) {
      LessTransitive(a, b, c);
    }
  }

  lemma NotBeyond(a: string, b: string)
    ensures AtMost(a, b) <==> !Less(b, a)
  {
    LessTotal(a, b);
    if Less(a, b) {
      LessAsymmetric(a, b);
    }
    LessIrreflexive(a);
  }

  /** A selected record, not newer than the bound, that differs from what the client knows. */
  ghost predicate Owed(s: Space, categories: set<Category>, known: Known, upper: nat, key: Key) {
    && key in s.records && s.records[key].sequence <= upper
    && Selects(categories, s.records[key].category) && Differs(known, s.records[key])
  }

  /** Everything owed up to a key has been returned; with no key, everything owed. */
  ghost predicate Settled(s: Space, categories: set<Category>, known: Known, upper: nat, end: Option<string>,
                          returned: seq<Record>) {
    forall key :: Owed(s, categories, known, upper, key) && (end.Some? ==> AtMost(Joined(key), end.value)) ==>
      s.records[key] in returned
  }

  /** One more page keeps the returned keys increasing and settles everything up to its last key. */
  lemma OnePageMore(s: Space, rows: seq<Record>, categories: set<Category>, known: Known, upper: nat, limit: nat,
                    after: string, returned: seq<Record>)
    requires Lists(s, categories, rows) && CodeUnitSorted(rows) && 1 <= limit
    requires forall key :: key in s.records ==> s.records[key].key == key
    requires CodeUnitSorted(returned) && forall r :: r in returned ==> AtMost(Joined(r.key), after)
    requires Settled(s, categories, known, upper, Some(after), returned)
    ensures var page := FirstPage(rows, known, after, upper, limit);
            var hasMore := |Differences(rows, known, after, upper)| > limit;
            var end := AfterKey(page, after);
            && CodeUnitSorted(returned + page)
            && (forall r :: r in returned + page ==> AtMost(Joined(r.key), end))
            && Settled(s, categories, known, upper, if hasMore then Some(end) else None, returned + page)
  {
    hide Joined, Less, Differs, Differences, FirstPage, CodeUnitSorted;
    PageTakesWanted(rows, known, after, upper, limit);
    var page, end := FirstPage(rows, known, after, upper, limit),
      AfterKey(FirstPage(rows, known, after, upper, limit), after);
    SortedConcat(returned, page, after);
    if page != [] {
      assert page[|page| - 1] in page;
    }
    forall r | r in returned + page ensures AtMost(Joined(r.key), end) {
      if r in returned {
        AtMostTransitive(Joined(r.key), after, end);
      }
    }
    var hasMore := |Differences(rows, known, after, upper)| > limit;
    forall key | Owed(s, categories, known, upper, key) && (AtMost(Joined(key), end) || !hasMore)
      ensures s.records[key] in returned + page
    {
      assert s.records[key] in rows;
      NotBeyond(Joined(key), after);
      NotBeyond(Joined(key), end);
    }
  }

  lemma {:induction false} WalkSettles(cfg: Config, categories: set<Category>, known: Known, x: Walk)
    requires Walks(cfg, categories, known, x)
    ensures CodeUnitSorted(Returned(x.pages))
    ensures forall r :: r in Returned(x.pages) ==> AtMost(Joined(r.key), End(x))
    ensures Settled(x.states[|x.states| - 1], categories, known, x.states[0].nextSequence,
                    if x.pages[|x.pages| - 1].hasMore then Some(End(x)) else None, Returned(x.pages))
    decreases |x.states|
  {
    hide Inv, Grows, Run, PossibleRun, Joined, CodeUnitSorted, Less, Differs, Differences, FirstPage, Lists, Owed,
         Settled;
    var n := |x.states| - 1;
    var t, upper, after := x.states[n], x.states[0].nextSequence, AfterFor(x, n);
    WalkStarts(cfg, categories, known, x, n);
    WalkKeeps(cfg, categories, known, x, n);
    RecordsUnderOwnKey(t);
    var returned := Returned(x.pages[..n]);
    if n == 0 {
      NothingReturned(t, categories, known, upper);
    } else {
      BeforeWalks(cfg, categories, known, x);
      WalkSettles(cfg, categories, known, Before(x));
      EndIsAfter(cfg, categories, known, x);
      SettledStays(cfg, categories, known, x, after, returned);
    }
    OnePageMore(t, x.listings[n], categories, known, upper, x.limits[n], after, returned);
  }

  lemma NothingReturned(s: Space, categories: set<Category>, known: Known, upper: nat)
    ensures CodeUnitSorted([]) && Settled(s, categories, known, upper, Some(""), [])
  {
  }

  lemma SettledStays(cfg: Config, categories: set<Category>, known: Known, x: Walk, end: string, returned: seq<Record>)
    requires Walks(cfg, categories, known, x) && |x.states| > 1
    requires Settled(x.states[|x.states| - 2], categories, known, x.states[0].nextSequence, Some(end), returned)
    ensures Settled(x.states[|x.states| - 1], categories, known, x.states[0].nextSequence, Some(end), returned)
  {
    hide Walks, Joined, AtMost, Differs;
    var t := x.states[|x.states| - 1];
    forall key | Owed(t, categories, known, x.states[0].nextSequence, key) && AtMost(Joined(key), end)
      ensures t.records[key] in returned
    {
      OwedBefore(cfg, categories, known, x, key);
    }
  }

  lemma EndIsAfter(cfg: Config, categories: set<Category>, known: Known, x: Walk)
    requires Walks(cfg, categories, known, x) && |x.states| > 1
    ensures End(Before(x)) == AfterFor(x, |x.states| - 1)
  {
    hide Inv, Run, PossibleRun, Lists, CodeUnitSorted, FirstPage, Differences;
    var n := |x.states| - 1;
    WalkStarts(cfg, categories, known, x, n - 1);
    assert Answered(x.states[n - 1], x.listings[n - 1], categories, known, TokenFor(x.pages, n - 1), x.limits[n - 1],
                    x.pages[n - 1]);
    assert x.pages[n - 1].hasMore;
  }

  /** What is owed after a gap was owed, unchanged, before it. */
  lemma OwedBefore(cfg: Config, categories: set<Category>, known: Known, x: Walk, key: Key)
    requires Walks(cfg, categories, known, x) && |x.states| > 1
    requires Owed(x.states[|x.states| - 1], categories, known, x.states[0].nextSequence, key)
    ensures var s, t := x.states[|x.states| - 2], x.states[|x.states| - 1];
            Owed(s, categories, known, x.states[0].nextSequence, key) && s.records[key] == t.records[key]
  {
    hide Inv, Grows, Run, PossibleRun, Lists, CodeUnitSorted, Answered, Differs;
    var n := |x.states| - 1;
    WalkKeeps(cfg, categories, known, x, n);
    WalkKeeps(cfg, categories, known, x, n - 1);
    CounterGrows(cfg, categories, known, x, n - 1);
    OldRecordsStay(x.states[n - 1], x.states[n], key);
  }

  lemma {:induction false} CounterGrows(cfg: Config, categories: set<Category>, known: Known, x: Walk, i: nat)
    requires Walks(cfg, categories, known, x) && i < |x.states|
    ensures x.states[0].nextSequence <= x.states[i].nextSequence
    decreases i
  {
    hide Inv, Run, PossibleRun, Lists, CodeUnitSorted, Answered;
    if i > 0 {
      CounterGrows(cfg, categories, known, x, i - 1);
      WalkKeeps(cfg, categories, known, x, i);
    }
  }

  lemma WalkReturnsOwed(cfg: Config, categories: set<Category>, known: Known, x: Walk)
    requires Walks(cfg, categories, known, x)
    ensures CodeUnitSorted(Returned(x.pages))
    ensures !x.pages[|x.pages| - 1].hasMore ==>
              var t, upper := x.states[|x.states| - 1], x.states[0].nextSequence;
              forall key :: Owed(t, categories, known, upper, key) ==> t.records[key] in Returned(x.pages)
  {
    hide Owed, Returned, CodeUnitSorted, Inv, Run, PossibleRun, Answered, Lists;
    WalkSettles(cfg, categories, known, x);
  }

  lemma OwedExactly(s: Space, categories: set<Category>, known: Known, upper: nat, key: Key)
    requires key in s.records ==> s.records[key].key == key
    ensures Owed(s, categories, known, upper, key) <==>
            && key in s.records && s.records[key].sequence <= upper
            && (categories == {} || s.records[key].category in categories)
            && !(key in known && known[key] == KnownRow(s.records[key].revision, s.records[key].deleted))
  {
  }

  /**
    Reconcile is complete over a walk of pages, whatever is committed between them: keys are returned in
    increasing order, each row as it was when the walk began and only if the client did not know it so;
    and at the end every selected record that is not newer than the frozen bound has been returned at its
    current value, or is known to the client at its current revision and with its deletion flag.
   */
  lemma WalkIsComplete(cfg: Config, categories: set<Category>, known: Known, x: Walk)
    requires Walks(cfg, categories, known, x)
    ensures CodeUnitSorted(Returned(x.pages))
    ensures forall r :: r in Returned(x.pages) ==>
              && r.key in x.states[0].records && x.states[0].records[r.key] == r
              && (categories == {} || r.category in categories)
              && !(r.key in known && known[r.key] == KnownRow(r.revision, r.deleted))
    ensures !x.pages[|x.pages| - 1].hasMore ==>
              var t := x.states[|x.states| - 1];
              forall key :: key in t.records && t.records[key].sequence <= x.states[0].nextSequence
                            && (categories == {} || t.records[key].category in categories) ==>
                || t.records[key] in Returned(x.pages)
                || (key in known && known[key] == KnownRow(t.records[key].revision, t.records[key].deleted))
  {
    WalkReturnsOwed(cfg, categories, known, x);
    ReturnedAreOld(cfg, categories, known, x);
    ReturnedAreSelected(cfg, categories, known, x);
    WalkKeeps(cfg, categories, known, x, |x.states| - 1);
    hide Walks, Returned, CodeUnitSorted, Owed, Differs, Grows;
    var t := x.states[|x.states| - 1];
    RecordsUnderOwnKey(t);
    hide Inv;
    forall key | key in t.records
      ensures Owed(t, categories, known, x.states[0].nextSequence, key) <==>
              && t.records[key].sequence <= x.states[0].nextSequence
              && (categories == {} || t.records[key].category in categories)
              && !(key in known && known[key] == KnownRow(t.records[key].revision, t.records[key].deleted))
    {
      OwedExactly(t, categories, known, x.states[0].nextSequence, key);
    }
    forall r: Record
      ensures Differs(known, r) <==> !(r.key in known && known[r.key] == KnownRow(r.revision, r.deleted))
    {
      DiffersExactly(known, r);
    }
  }

  lemma DiffersExactly(known: Known, r: Record)
    ensures Differs(known, r) <==> !(r.key in known && known[r.key] == KnownRow(r.revision, r.deleted))
  {
  }

  lemma {:induction false} ReturnedAreSelected(cfg: Config, categories: set<Category>, known: Known, x: Walk)
    requires Walks(cfg, categories, known, x)
    ensures forall r :: r in Returned(x.pages) ==> categories == {} || r.category in categories
    decreases |x.states|
  {
    hide Inv, Grows, Run, PossibleRun, Joined, CodeUnitSorted, Less, Differs, Differences, FirstPage;
    var n := |x.states| - 1;
    WalkStarts(cfg, categories, known, x, n);
    PageTakesWanted(x.listings[n], known, AfterFor(x, n), x.states[0].nextSequence, x.limits[n]);
    if n > 0 {
      BeforeWalks(cfg, categories, known, x);
      ReturnedAreSelected(cfg, categories, known, Before(x));
    }
  }

  // ---------------------------------------------------------------- what the client knows then

  /** What a client knows after taking in the rows it was given. */
  function Learned(known: Known, rows: seq<Record>): Known {
    if rows == [] then known
    else Learned(known,
                 rows[..|rows| - 1])[rows[|rows| - 1].key := KnownRow(rows[|rows| - 1].revision,
                                                                      rows[|rows| - 1].deleted)]
  }

  /** When only one row of an entity is taken in, if any, the entity is known as that row says. */
  lemma {:induction false} LearnedRow(known: Known, rows: seq<Record>, r: Record)
    requires forall q :: q in rows && q.key == r.key ==> q == r
    requires r in rows || (r.key in known && known[r.key] == KnownRow(r.revision, r.deleted))
    ensures r.key in Learned(known, rows) && Learned(known, rows)[r.key] == KnownRow(r.revision, r.deleted)
    decreases |rows|
  {
    if rows != [] {
      var rest, last := rows[..|rows| - 1], rows[|rows| - 1];
      assert last in rows && rows == rest + [last];
      if last.key != r.key {
        LearnedRow(known, rest, r);
      }
    }
  }

  /**
    Reconciling brings a client up to date: after the last page it knows every selected record that is not
    newer than the bound at the revision and with the deletion flag the server has.
   */
  lemma WalkBringsUpToDate(cfg: Config, categories: set<Category>, known: Known, x: Walk)
    requires Walks(cfg, categories, known, x) && !x.pages[|x.pages| - 1].hasMore
    ensures var t, learned := x.states[|x.states| - 1], Learned(known, Returned(x.pages));
            forall key :: key in t.records && t.records[key].sequence <= x.states[0].nextSequence
                          && (categories == {} || t.records[key].category in categories) ==>
              key in learned && learned[key] == KnownRow(t.records[key].revision, t.records[key].deleted)
  {
    WalkIsComplete(cfg, categories, known, x);
    WalkGrows(cfg, categories, known, x, |x.states| - 1);
    var s, t, rows := x.states[0], x.states[|x.states| - 1], Returned(x.pages);
    hide Walks, Returned, CodeUnitSorted, Learned;
    forall key | key in t.records && t.records[key].sequence <= s.nextSequence
                 && (categories == {} || t.records[key].category in categories)
      ensures key in Learned(known, rows)
              && Learned(known, rows)[key] == KnownRow(t.records[key].revision, t.records[key].deleted)
    {
      WalkKeeps(cfg, categories, known, x, 0);
      OldRecordsStay(s, t, key);
      LearnedRow(known, rows, t.records[key]);
    }
  }

  lemma RecordsUnderOwnKey(s: Space)
    requires Inv(s)
    ensures forall key :: key in s.records ==> s.records[key].key == key
  {
  }

  lemma {:induction false} WalkGrows(cfg: Config, categories: set<Category>, known: Known, x: Walk, i: nat)
    requires Walks(cfg, categories, known, x) && i < |x.states|
    ensures Inv(x.states[i]) && Grows(x.states[0], x.states[i])
    decreases i
  {
    hide Inv, Run, PossibleRun, Lists, CodeUnitSorted, Answered;
    WalkKeeps(cfg, categories, known, x, i);
    if i > 0 {
      WalkGrows(cfg, categories, known, x, i - 1);
      GrowsTransitive(x.states[0], x.states[i - 1], x.states[i]);
    }
  }

  /** Only records that existed at the first request, unchanged since, are ever returned. */
  lemma {:induction false} ReturnedAreOld(cfg: Config, categories: set<Category>, known: Known, x: Walk)
    requires Walks(cfg, categories, known, x)
    ensures forall r :: r in Returned(x.pages) ==>
              r.key in x.states[0].records && x.states[0].records[r.key] == r && Differs(known, r)
    ensures (if x.pages[|x.pages| - 1].hasMore then |x.pages| else |x.pages| - 1) <= |Returned(x.pages)|
    decreases |x.states|
  {
    hide Inv, Grows, Run, PossibleRun, Joined, CodeUnitSorted, Less, Differs, Differences, FirstPage;
    var n := |x.states| - 1;
    var t, upper, after := x.states[n], x.states[0].nextSequence, AfterFor(x, n);
    WalkStarts(cfg, categories, known, x, n);
    WalkGrows(cfg, categories, known, x, n);
    PageTakesWanted(x.listings[n], known, after, upper, x.limits[n]);
    forall r | r in x.pages[n].records ensures r.key in x.states[0].records && x.states[0].records[r.key] == r {
      assert r in x.listings[n];
      OldRecordsStay(x.states[0], t, r.key);
    }
    if n > 0 {
      BeforeWalks(cfg, categories, known, x);
      ReturnedAreOld(cfg, categories, known, Before(x));
      assert x.pages[n - 1].hasMore;
    }
  }

  lemma {:induction false} SortedRowsAreFew(rows: seq<Record>, keys: set<Key>)
    requires CodeUnitSorted(rows) && forall r :: r in rows ==> r.key in keys
    ensures |rows| <= |keys|
    decreases |rows|
  {
    if rows != [] {
      var n := |rows| - 1;
      forall r | r in rows[..n] ensures r.key in keys - {rows[n].key} {
        var i :| 0 <= i < n && rows[i] == r;
        LessIrreflexive(Joined(r.key));
        assert Less(Joined(rows[i].key), Joined(rows[n].key));
      }
      assert rows[n] in rows;
      SortedRowsAreFew(rows[..n], keys - {rows[n].key});
    }
  }

  /** Walks are finite: there are no more pages than records at the first request, plus one. */
  lemma WalkIsFinite(cfg: Config, categories: set<Category>, known: Known, x: Walk)
    requires Walks(cfg, categories, known, x)
    ensures |x.pages| <= |x.states[0].records.Keys| + 1
  {
    hide Inv, Grows, Run, PossibleRun, CodeUnitSorted, Answered, Lists, Differs;
    ReturnedAreOld(cfg, categories, known, x);
    WalkSettles(cfg, categories, known, x);
    SortedRowsAreFew(Returned(x.pages), x.states[0].records.Keys);
  }
}
