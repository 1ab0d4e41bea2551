/**
  Order-independent merging: concurrent edits of one record that change different fields are all
  accepted, and every arrival order ends in the same payload.
 */
module Convergence {
  import opened Wrappers
  import opened Schema
  import opened Merging
  import opened Replication
  import opened Runs
  import opened Ledgers

  /** No two edits change the same field of the base. */
  ghost predicate Disjoint(base: Payload, edits: seq<Payload>) {
    forall i, j, name :: 0 <= i < j < |edits| && ChangedIn(base, edits[i], name) ==> !ChangedIn(base, edits[j], name)
  }

  /** The base overlaid with every edit's changed fields. */
  ghost predicate IsOverlay(result: Payload, base: Payload, edits: seq<Payload>) {
    && (forall i, name :: 0 <= i < |edits| && ChangedIn(base, edits[i], name) ==>
        Field(result, name) == Field(edits[i], name))
    && (forall name :: ChangedIn(base, result, name) ==>
        exists i :: 0 <= i < |edits| && ChangedIn(base, edits[i], name))
  }

  /** Which edits there are decides the overlay; their order does not. */
  lemma OverlayIgnoresOrder(p: Payload, q: Payload, base: Payload, edits: seq<Payload>, others: seq<Payload>)
    requires IsOverlay(p, base, edits) && IsOverlay(q, base, others)
    requires multiset(edits) == multiset(others)
    ensures p == q
  {
    SameMembers(edits, others);
    forall name ensures Field(p, name) == Field(q, name) {
      if i: nat :| i < |edits| && ChangedIn(base, edits[i], name) {
        assert edits[i] in others;
      } else {
        forall j | 0 <= j < |others| ensures !ChangedIn(base, others[j], name) {
          assert others[j] in edits;
        }
        assert !ChangedIn(base, p, name) && !ChangedIn(base, q, name);
      }
    }
    SameFields(p, q);
  }

  lemma SameMembers(edits: seq<Payload>, others: seq<Payload>)
    requires multiset(edits) == multiset(others)
    ensures forall e :: e in edits <==> e in others
  {
    forall e ensures e in edits <==> e in others {
      assert e in edits <==> e in multiset(edits);
      assert e in others <==> e in multiset(others);
    }
  }

  lemma NothingChanged(base: Payload, edits: seq<Payload>)
    requires IsOverlay(base, base, edits)
    ensures forall i, name :: 0 <= i < |edits| ==> !ChangedIn(base, edits[i], name)
  {
  }

  /** The first edit after the base replaces the payload as a whole. */
  lemma OverlayFirst(base: Payload, edits: seq<Payload>, edit: Payload)
    requires IsOverlay(base, base, edits)
    ensures IsOverlay(edit, base, edits + [edit])
  {
    NothingChanged(base, edits);
    var all := edits + [edit];
    assert all[|edits|] == edit && forall i :: 0 <= i < |edits| ==> all[i] == edits[i];
  }

  /** Merging one more edit on other fields has no conflict and overlays it. */
  lemma OverlayMerge(base: Payload, current: Payload, edits: seq<Payload>, edit: Payload)
    requires IsOverlay(current, base, edits) && Disjoint(base, edits + [edit])
    ensures Merging.Conflicting(base, current, edit) == {}
    ensures IsOverlay(Merged(base, current, edit), base, edits + [edit])
  {
    var all := edits + [edit];
    var merged := Merged(base, current, edit);
    forall name | ChangedIn(base, current, name) ensures !ChangedIn(base, edit, name) {
      var i :| 0 <= i < |edits| && ChangedIn(base, edits[i], name);
      assert all[i] == edits[i] && all[|edits|] == edit;
    }
    forall i, name | 0 <= i < |all| && ChangedIn(base, all[i], name)
      ensures Field(merged, name) == Field(all[i], name) {
      MergeIsThreeWay(base, current, edit, name);
      if i < |edits| {
        assert all[i] == edits[i] && all[|edits|] == edit;
      }
    }
    forall name | ChangedIn(base, merged, name) ensures exists i :: 0 <= i < |all| && ChangedIn(base, all[i], name) {
      MergeIsThreeWay(base, current, edit, name);
      if ChangedIn(base, edit, name) {
        assert ChangedIn(base, all[|edits|], name);
      } else {
        assert ChangedIn(base, current, name);
        var i :| 0 <= i < |edits| && ChangedIn(base, edits[i], name);
        assert ChangedIn(base, all[i], name);
      }
    }
  }

  // ---------------------------------------------------------------- runs of edits

  /** A new, valid upsert of the entity, written against the given revision. */
  ghost predicate EditsFrom(cfg: Config, s: Space, e: Event, key: Key, base: nat) {
    && e.Push? && e.op.key == key && e.op.kind.Upsert? && e.op.baseRevision == Some(base)
    && Refusal(cfg, e.op).None? && EpochAllows(s, e.ctx) && !Recorded(s, e.ctx, e.op)
  }

  /** Events that touch the entity are such edits; anything may happen to other entities. */
  ghost predicate OnlyEdits(cfg: Config, s: Space, events: seq<Event>, key: Key, base: nat)
    requires PossibleRun(cfg, s, events)
    decreases |events|
  {
    events == [] ||
    (&& (key !in Touched(s, events[0]) || EditsFrom(cfg, s, events[0], key, base))
     && OnlyEdits(cfg, Step(cfg, s, events[0]), events[1..], key, base))
  }

  ghost predicate IsEdit(e: Event, key: Key) {
    e.Push? && e.op.key == key && e.op.payload.Some?
  }

  /** The payloads pushed for the entity, in order of arrival. */
  ghost function EditsOf(events: seq<Event>, key: Key): seq<Payload>
    decreases |events|
  {
    if events == [] then []
    else (if IsEdit(events[0], key) then [events[0].op.payload.value] else []) + EditsOf(events[1..], key)
  }

  /** The live record of the entity overlays the edits on the payload of the base revision. */
  ghost predicate Overlaid(s: Space, key: Key, base: nat, edits: seq<Payload>) {
    && key in s.records && !s.records[key].deleted && s.records[key].payload.Some?
    && VersionKey(key, base) in s.versions
    && IsOverlay(s.records[key].payload.value, Fields(s.versions[VersionKey(key, base)].record.payload), edits)
  }

  ghost predicate AcceptedAs(s: Space, e: Event) {
    e.Push? && Recorded(s, e.ctx, e.op) && s.operations[LedgerKey(e.ctx.clientId, e.op.operationId)].request == e.op
    && s.operations[LedgerKey(e.ctx.clientId, e.op.operationId)].outcome.Accepted?
  }

  /** One edit on fields no earlier edit changed is accepted and overlaid. */
  lemma EditOverlays(cfg: Config, s: Space, e: Event, key: Key, base: nat, edits: seq<Payload>)
    requires Newest(s.records, s.versions) && !PolicyOf(key.entityType).LastWriterWins?
    requires Possible(s, e) && EditsFrom(cfg, s, e, key, base) && Overlaid(s, key, base, edits)
    requires Disjoint(Fields(s.versions[VersionKey(key, base)].record.payload), edits + [e.op.payload.value])
    ensures var t := Step(cfg, s, e);
            && AcceptedAs(t, e) && key in t.records && !t.records[key].deleted && t.records[key].payload.Some?
            && IsOverlay(t.records[key].payload.value, Fields(s.versions[VersionKey(key, base)].record.payload),
                         edits + [e.op.payload.value])
  {
    hide AnyLive, IsOverlay, Disjoint, Merged, Merging.Conflicting;
    var before, edit := Fields(s.versions[VersionKey(key, base)].record.payload), e.op.payload.value;
    if base == s.records[key].revision {
      OverlayFirst(before, edits, edit);
    } else {
      OverlayMerge(before, s.records[key].payload.value, edits, edit);
    }
  }

  lemma DisjointPrefix(base: Payload, edits: seq<Payload>, more: seq<Payload>)
    requires Disjoint(base, edits + more)
    ensures Disjoint(base, edits)
  {
    forall i, j, name | 0 <= i < j < |edits| && ChangedIn(base, edits[i], name)
      ensures !ChangedIn(base, edits[j], name) {
      assert (edits + more)[i] == edits[i] && (edits + more)[j] == edits[j];
    }
  }

  /**
    In any run in which the entity is touched only by edits written against one retained revision
    that change different fields, every edit is accepted and the record overlays them all.
   */
  lemma {:induction false} DisjointEditsAllMerge(cfg: Config, s: Space, events: seq<Event>, key: Key, base: nat,
                                                 edits: seq<Payload>)
    requires Inv(s) && !PolicyOf(key.entityType).LastWriterWins?
    requires PossibleRun(cfg, s, events) && OnlyEdits(cfg, s, events, key, base) && Overlaid(s, key, base, edits)
    requires Disjoint(Fields(s.versions[VersionKey(key, base)].record.payload), edits + EditsOf(events, key))
    ensures var t := Run(cfg, s, events);
            && Overlaid(t, key, base, edits + EditsOf(events, key))
            && t.versions[VersionKey(key, base)] == s.versions[VersionKey(key, base)]
            && (forall e :: e in events && IsEdit(e, key) ==> AcceptedAs(t, e))
    decreases |events|
  {
    hide Step, IsOverlay, Disjoint, Dense, Filed, Ordered, Described, DenseLog, ConflictsFiled, LedgerHonest;
    var payloads := EditsOf(events, key);
    if events == [] {
      assert edits + payloads == edits;
    } else {
      var e, rest := events[0], EditsOf(events[1..], key);
      var t := Step(cfg, s, e);
      StepKeeps(cfg, s, e);
      RunKeeps(cfg, t, events[1..]);
      if key in Touched(s, e) {
        var edit := e.op.payload.value;
        assert edits + payloads == (edits + [edit]) + rest;
        DisjointPrefix(Fields(s.versions[VersionKey(key, base)].record.payload), edits + [edit], rest);
        EditOverlays(cfg, s, e, key, base, edits);
        DisjointEditsAllMerge(cfg, t, events[1..], key, base, edits + [edit]);
      } else {
        StepLeavesAlone(cfg, s, e, key);
        assert Current(s, key) == Current(t, key);
        assert !IsEdit(e, key);
        assert payloads == rest;
        DisjointEditsAllMerge(cfg, t, events[1..], key, base, edits);
      }
    }
  }

  /**
    Two runs that deliver the same edits in different orders, among different other events, leave
    the same payload.
   */
  lemma ArrivalOrderDoesNotMatter(cfg: Config, s: Space, events: seq<Event>, others: seq<Event>, key: Key, base: nat)
    requires Inv(s) && !PolicyOf(key.entityType).LastWriterWins? && Overlaid(s, key, base, [])
    requires PossibleRun(cfg, s, events) && OnlyEdits(cfg, s, events, key, base)
    requires PossibleRun(cfg, s, others) && OnlyEdits(cfg, s, others, key, base)
    requires multiset(EditsOf(events, key)) == multiset(EditsOf(others, key))
    requires Disjoint(Fields(s.versions[VersionKey(key, base)].record.payload), EditsOf(events, key))
    requires Disjoint(Fields(s.versions[VersionKey(key, base)].record.payload), EditsOf(others, key))
    ensures key in Run(cfg, s, events).records && key in Run(cfg, s, others).records
    ensures Run(cfg, s, events).records[key].payload == Run(cfg, s, others).records[key].payload
  {
    hide Inv, OnlyEdits, IsOverlay, Disjoint, Run, PossibleRun;
    assert [] + EditsOf(events, key) == EditsOf(events, key);
    assert [] + EditsOf(others, key) == EditsOf(others, key);
    DisjointEditsAllMerge(cfg, s, events, key, base, []);
    DisjointEditsAllMerge(cfg, s, others, key, base, []);
    OverlayIgnoresOrder(Run(cfg, s, events).records[key].payload.value, Run(cfg, s, others).records[key].payload.value,
                        Fields(s.versions[VersionKey(key, base)].record.payload), EditsOf(events, key),
                          EditsOf(others, key));
  }
}
