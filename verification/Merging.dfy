/**
  Field-wise three-way merging of record payloads. A payload maps a field name to the JSON text of
  its value, so two field values are equal exactly when their serialised forms are.
 */
module Merging {
  import opened Wrappers

  type Payload = map<string, string>

  function Field(p: Payload, name: string): Option<string> {
    if name in p then Some(p[name]) else None
  }

  /** The fields of a payload that may be missing altogether (a tombstone of an unknown entity). */
  function Fields(p: Option<Payload>): Payload {
    p.GetOr(map[])
  }

  predicate ChangedIn(before: Payload, after: Payload, name: string) {
    Field(after, name) != Field(before, name)
  }

  /** Fields that both sides changed, to different values. */
  function Conflicting(base: Payload, current: Payload, incoming: Payload): set<string> {
    set name | name in base.Keys + current.Keys + incoming.Keys
               && ChangedIn(base, current, name) && ChangedIn(base, incoming, name)
               && ChangedIn(current, incoming, name)
  }

  function MergedField(base: Payload, current: Payload, incoming: Payload, name: string): Option<string> {
    if ChangedIn(base, incoming, name) && !ChangedIn(base, current, name)
    then Field(incoming, name)
    else Field(current, name)
  }

  function Merged(base: Payload, current: Payload, incoming: Payload): Payload {
    map name | name in current.Keys + incoming.Keys && MergedField(base, current, incoming, name).Some?
      :: MergedField(base, current, incoming, name).value
  }

  /** Result and conflict list of one merge, computed field by field in any order. */
  method MergeFields(base: Payload, current: Payload, incoming: Payload)
    returns (payload: Payload, conflicting: set<string>)
    ensures payload == Merged(base, current, incoming)
    ensures conflicting == Conflicting(base, current, incoming)
  {
    payload, conflicting := current, {};
    var pending := base.Keys + current.Keys + incoming.Keys;
    while pending != {}
      invariant pending <= base.Keys + current.Keys + incoming.Keys
      invariant payload.Keys <= current.Keys + incoming.Keys
      invariant forall name :: name in pending ==> Field(payload, name) == Field(current, name)
      invariant forall name :: name !in pending ==> Field(payload, name) == MergedField(base, current, incoming, name)
      invariant conflicting == set name | name in Conflicting(base, current, incoming) && name !in pending
    {
      var name :| name in pending;
      var before, local, remote := Field(base, name), Field(current, name), Field(incoming, name);
      var currentChanged, incomingChanged := local != before, remote != before;
      if incomingChanged && !currentChanged {
        payload := if remote.Some? then payload[name := remote.value] else payload - {name};
      } else if incomingChanged && currentChanged && local != remote {
        conflicting := conflicting + {name};
      }
      pending := pending - {name};
    }
    SameFields(payload, Merged(base, current, incoming));
  }

  lemma SameFields(p: Payload, q: Payload)
    requires forall name :: Field(p, name) == Field(q, name)
    ensures p == q
  {
    forall name ensures name in p <==> name in q {
      assert Field(p, name) == Field(q, name);
    }
    forall name | name in p ensures p[name] == q[name] {
      assert Field(p, name) == Field(q, name);
    }
  }

  /** The merge is exactly three-way: an untouched field follows whichever side changed it. */
  lemma MergeIsThreeWay(base: Payload, current: Payload, incoming: Payload, name: string)
    ensures name in Conflicting(base, current, incoming) <==>
            ChangedIn(base, current, name) && ChangedIn(base, incoming, name) && ChangedIn(current, incoming, name)
    ensures !ChangedIn(base, incoming, name) ==>
            Field(Merged(base, current, incoming), name) == Field(current, name)
    ensures name !in Conflicting(base, current, incoming) && ChangedIn(base, incoming, name) ==>
            Field(Merged(base, current, incoming), name) == Field(incoming, name)
  {
    assert Field(Merged(base, current, incoming), name) == MergedField(base, current, incoming, name);
  }

  /** Neither side is privileged: conflicts agree, and without conflicts so does the merged payload. */
  lemma MergeIsSymmetric(base: Payload, left: Payload, right: Payload)
    ensures Conflicting(base, left, right) == Conflicting(base, right, left)
    ensures Conflicting(base, left, right) == {} ==> Merged(base, left, right) == Merged(base, right, left)
  {
    assert forall name :: name in Conflicting(base, left, right) <==> name in Conflicting(base, right, left);
    if Conflicting(base, left, right) == {} {
      forall name ensures Field(Merged(base, left, right), name) == Field(Merged(base, right, left), name) {
        MergeIsThreeWay(base, left, right, name);
        MergeIsThreeWay(base, right, left, name);
      }
      SameFields(Merged(base, left, right), Merged(base, right, left));
    }
  }

  /** A side that did not move leaves the other side's payload untouched. */
  lemma MergeWithUnchangedSide(base: Payload, other: Payload)
    ensures Conflicting(base, base, other) == {} && Merged(base, base, other) == other
    ensures Conflicting(base, other, base) == {} && Merged(base, other, base) == other
  {
    forall name ensures Field(Merged(base, base, other), name) == Field(other, name)
                     && Field(Merged(base, other, base), name) == Field(other, name) {
      MergeIsThreeWay(base, base, other, name);
      MergeIsThreeWay(base, other, base, name);
    }
    SameFields(Merged(base, base, other), other);
    SameFields(Merged(base, other, base), other);
  }
}
