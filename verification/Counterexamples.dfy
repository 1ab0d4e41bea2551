/**
  Inputs on which replication does not keep a promise, each a short run from a new space. The
  conditions under which the promises hold are proved next to the operations.
 */
module Counterexamples {
  import opened CodeUnits
  import opened Merging
  import opened Reconciling
  import opened Replicas
  import opened Replication
  import opened Runs
  import opened Schema
  import opened Summaries
  import opened Wrappers
  import Pulling

  // ---------------------------------------------------------------- tombstones

  /** A preference is written, deleted and then written by a client that has not seen the deletion. */
  lemma StaleUpsertRevives(cfg: Config, scope: Scope, payload: Payload)
    requires cfg.valid(Preference, payload)
    ensures var key, ctx := Key(Preference, "p"), Context(scope, "c", None);
            var late := Context(scope, "d", None);
            var s1 := Pushed(cfg, NewSpace(scope, 1), ctx, Put("1", key, Preferences, 0, payload));
            var s2 := Pushed(cfg, s1, ctx, Remove("2", key, Preferences, 1));
            var s3 := Pushed(cfg, s2, late, Put("3", key, Preferences, 1, payload));
            && key in s2.records && s2.records[key].deleted && s2.records[key].revision == 2
            && key in s3.records && !s3.records[key].deleted && s3.records[key].revision == 3
  {
    hide ApplyOperation, AnyLive, CarriedOut;
    var key, ctx := Key(Preference, "p"), Context(scope, "c", None);
    var create := Put("1", key, Preferences, 0, payload);
    var delete := Remove("2", key, Preferences, 1);
    Carry(cfg, NewSpace(scope, 1), ctx, create);
    PushedRevision(cfg, NewSpace(scope, 1), ctx, create);
    var s1 := Pushed(cfg, NewSpace(scope, 1), ctx, create);
    Carry(cfg, s1, ctx, delete);
    PushedRevision(cfg, s1, ctx, delete);
    var s2 := Pushed(cfg, s1, ctx, delete);
    LastWriterWins(cfg, s2, Context(scope, "d", None),
                   Put("3", key, Preferences, 1, payload));
  }

  lemma LastWriterWins(cfg: Config, s: Space, ctx: Context, op: Operation)
    requires op.key in s.records && op.kind.Upsert? && op.key.entityType == Preference && op.category == Preferences
    requires op.payload.Some? && cfg.valid(Preference, op.payload.value)
    requires ctx.restoreEpoch.None? && LedgerKey(ctx.clientId, op.operationId) !in s.operations
    ensures var t := Pushed(cfg, s, ctx, op);
            op.key in t.records && !t.records[op.key].deleted
              && t.records[op.key].revision == s.records[op.key].revision + 1
  {
    hide AnyLive;
  }

  // ---------------------------------------------------------------- filtered replicas

  /**
    A to-do that is deleted under the category of notes: replaying the whole log of to-dos leaves it
    live, while the server has no to-do any more.
   */
  lemma StaleRowStays(cfg: Config, scope: Scope, payload: Payload)
    requires cfg.valid(Todo, payload)
    ensures var key, ctx := Key(Todo, "t"), Context(scope, "c", None);
            var s := Pushed(cfg, NewSpace(scope, 1), ctx, Put("1", key, Todos, 0, payload));
            var t := Pushed(cfg, s, ctx, Remove("2", key, Notes, 1));
            var replica := Replay(map[], Slice(t.changes, {Todos}, 0, t.nextSequence));
            && key in replica && !replica[key].deleted && replica == s.records
            && Selected(t.records, {Todos}) == map[]
  {
    hide ApplyOperation, AnyLive, CarriedOut, Slice, Replay, Selected;
    var key, ctx := Key(Todo, "t"), Context(scope, "c", None);
    var create := Put("1", key, Todos, 0, payload);
    var delete := Remove("2", key, Notes, 1);
    Carry(cfg, NewSpace(scope, 1), ctx, create);
    PushedRevision(cfg, NewSpace(scope, 1), ctx, create);
    PushedChange(cfg, NewSpace(scope, 1), ctx, create);
    var s := Pushed(cfg, NewSpace(scope, 1), ctx, create);
    Carry(cfg, s, ctx, delete);
    PushedRevision(cfg, s, ctx, delete);
    PushedChange(cfg, s, ctx, delete);
    var t := Pushed(cfg, s, ctx, delete);
    OneOfTwo(t.changes, s.records[key]);
    assert s.records == map[key := s.records[key]];
    NoneSelected(t.records, {Todos});
  }

  lemma NoneSelected(records: Records, categories: set<Category>)
    requires categories != {} && forall key :: key in records ==> records[key].category !in categories
    ensures Selected(records, categories) == map[]
  {
  }

  /** The log entry of a carried-out push. */
  lemma PushedChange(cfg: Config, s: Space, ctx: Context, op: Operation)
    requires CarriedOut(cfg, s, ctx, op) && !op.kind.ResolveConflict? && !IsStale(op, Current(s, op.key))
             && ctx.restoreEpoch.None?
    ensures var t := Pushed(cfg, s, ctx, op);
            && |t.changes| == |s.changes| + 1 && t.changes[..|s.changes|] == s.changes && op.key in t.records
            && var c := t.changes[|s.changes|];
               c.sequence == t.nextSequence && c.category == op.category && c.key == op.key && c.body.Stored?
                 && c.body.record == t.records[op.key]
  {
    hide Pushed, CategoryAfter;
    var payload, outcome := PushedIsAccept(cfg, s, ctx, op);
  }

  /** Of two entries the first is a revision of a to-do and the second is filed under notes. */
  lemma OneOfTwo(changes: seq<Change>, r: Record)
    requires |changes| == 2 && changes[0].sequence == 1 && changes[1].sequence == 2
    requires changes[0].category == Todos && changes[1].category == Notes && changes[0].body.Stored?
             && changes[0].body.record == r
    ensures Replay(map[], Slice(changes, {Todos}, 0, 2)) == map[changes[0].key := r]
  {
    var one := changes[..1];
    assert one[..0] == [] && Slice([], {Todos}, 0, 2) == [];
    assert Slice(one, {Todos}, 0, 2) == [changes[0]];
    assert Slice(changes, {Todos}, 0, 2) == [changes[0]];
    assert [changes[0]][..0] == [];
  }

  // ---------------------------------------------------------------- a new epoch

  /**
    A to-do, and then a new epoch: a client that asks without a cursor, or goes on with the cursor it
    was given, is served an empty last page, while the to-do is live.
   */
  lemma EmptyPageAfterEpoch(cfg: Config, scope: Scope, payload: Payload)
    requires cfg.valid(Todo, payload)
    ensures var key, ctx := Key(Todo, "t"), Context(scope, "c", None);
            var t := AdvanceEpoch(Pushed(cfg, NewSpace(scope, 1), ctx, Put("1", key, Todos, 0, payload)));
            && key in t.records && !t.records[key].deleted && t.floorSequence == 2
            && var first := Pulling.Pull(t, {}, None, 10);
               && first.Ok? && first.value.changes == [] && !first.value.hasMore
               && var second := Pulling.Pull(t, {}, Some(first.value.nextCursor), 10);
                  second.Ok? && second.value.changes == [] && !second.value.hasMore
  {
    hide ApplyOperation, AnyLive, CarriedOut;
    var key, ctx := Key(Todo, "t"), Context(scope, "c", None);
    var create := Put("1", key, Todos, 0, payload);
    Carry(cfg, NewSpace(scope, 1), ctx, create);
    PushedRevision(cfg, NewSpace(scope, 1), ctx, create);
    EmptyLogIsServed(AdvanceEpoch(Pushed(cfg, NewSpace(scope, 1), ctx, create)));
  }

  lemma EmptyLogIsServed(t: Space)
    requires t.changes == [] && t.nextSequence == 1 && t.floorSequence == 2
    ensures var first := Pulling.Pull(t, {}, None, 10);
            && first.Ok? && first.value.changes == [] && !first.value.hasMore
            && var second := Pulling.Pull(t, {}, Some(first.value.nextCursor), 10);
               second.Ok? && second.value.changes == [] && !second.value.hasMore
  {
  }

  // ---------------------------------------------------------------- reconciling

  function Folded(s: string): string {
    if s == [] then [] else [if 'A' <= s[0] <= 'Z' then (s[0] as int + 32) as char else s[0]] + Folded(s[1..])
  }

  /**
    Locale order on texts of ASCII letters, as the default table of Unicode Technical Standard #10
    gives it: case decides last, and then lower case comes first.
   */
  predicate Collates(a: string, b: string) {
    Less(Folded(a), Folded(b)) || (Folded(a) == Folded(b) && Less(b, a))
  }

  /** Rows in the order of their type names and then of their identifiers, both compared by locale. */
  ghost predicate LocaleSorted(rows: seq<Record>) {
    forall i, j :: 0 <= i < j < |rows| ==>
                     var k, l := rows[i].key, rows[j].key;
                     Collates(NameOf(k.entityType), NameOf(l.entityType))
                       || (k.entityType == l.entityType && Collates(k.entityId, l.entityId))
  }

  /**
    Two to-dos "a" and "B", listed in locale order: a client that knows nothing is given "a", then an
    empty last page, and never "B".
   */
  lemma LocaleOrderLosesRow(cfg: Config, scope: Scope, payload: Payload)
    requires cfg.valid(Todo, payload)
    ensures var a, b, ctx := Key(Todo, "a"), Key(Todo, "B"), Context(scope, "c", None);
            var s1 := Pushed(cfg, NewSpace(scope, 1), ctx, Put("1", a, Todos, 0, payload));
            var s := Pushed(cfg, s1, ctx, Put("2", b, Todos, 0, payload));
            && s.records.Keys == {a, b}
            && var rows := [s.records[a], s.records[b]];
               && Lists(s, {}, rows) && LocaleSorted(rows)
               && var first := Reconcile(s, rows, {}, map[], None, 1);
                  && first.Ok? && first.value.records == [s.records[a]] && first.value.token.Some?
                  && var second := Reconcile(s, rows, {}, map[], first.value.token, 1);
                     second.Ok? && second.value.records == [] && !second.value.hasMore
  {
    hide ApplyOperation, AnyLive, CarriedOut, LocaleSorted, Lists, Reconcile;
    var a, b, ctx := Key(Todo, "a"), Key(Todo, "B"), Context(scope, "c", None);
    var op1 := Put("1", a, Todos, 0, payload);
    var op2 := Put("2", b, Todos, 0, payload);
    Carry(cfg, NewSpace(scope, 1), ctx, op1);
    PushedRevision(cfg, NewSpace(scope, 1), ctx, op1);
    var s1 := Pushed(cfg, NewSpace(scope, 1), ctx, op1);
    Carry(cfg, s1, ctx, op2);
    PushedRevision(cfg, s1, ctx, op2);
    var s := Pushed(cfg, s1, ctx, op2);
    TwoRowsListed(s, a, b);
    SecondPageIsEmpty(s, [s.records[a], s.records[b]]);
  }

  lemma TwoRowsListed(s: Space, a: Key, b: Key)
    requires a == Key(Todo, "a") && b == Key(Todo, "B") && s.records.Keys == {a, b}
    requires s.records[a].key == a && s.records[b].key == b
    ensures Lists(s, {}, [s.records[a], s.records[b]]) && LocaleSorted([s.records[a], s.records[b]])
  {
    var rows := [s.records[a], s.records[b]];
    assert Collates("a", "B");
    assert a in s.records && b in s.records && rows[0] in rows && rows[1] in rows;
  }

  lemma SecondPageIsEmpty(s: Space, rows: seq<Record>)
    requires |rows| == 2 && rows[0].key == Key(Todo, "a") && rows[1].key == Key(Todo, "B")
    requires rows[0].sequence <= s.nextSequence && rows[1].sequence <= s.nextSequence
    ensures var first := Reconcile(s, rows, {}, map[], None, 1);
            && first.Ok? && first.value.records == [rows[0]] && first.value.token.Some?
            && var second := Reconcile(s, rows, {}, map[], first.value.token, 1);
               second.Ok? && second.value.records == [] && !second.value.hasMore
  {
    var a, b := Key(Todo, "a"), Key(Todo, "B");
    CodeUnitOrder(a, b);
    OnlyTwoWanted(rows, 0, 1, map[], "", s.nextSequence);
    DifferencesNone(rows, map[], Joined(a), s.nextSequence);
    hide Differences, Joined, Less;
  }

  lemma CodeUnitOrder(a: Key, b: Key)
    requires a == Key(Todo, "a") && b == Key(Todo, "B")
    ensures !Less(Joined(a), Joined(b)) && !Less(Joined(a), Joined(a))
    ensures Less("", Joined(a)) && Less("", Joined(b))
  {
    JoinedKeysComparePairwise(a, b);
    LessIrreflexive(Joined(a));
    LessIrreflexive(NameOf(Todo));
  }
}
