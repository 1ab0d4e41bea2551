/**
  One import from beginning to end: that it ends whatever fails, and exactly when it publishes if
  nothing fails.
 */
module ImportRuns {
  import opened Imports
  import opened PointFiles
  import opened Streams
  import opened Wrappers

  function First(pack: Package, dryRun: bool): Attempt {
    Attempt(pack, dryRun, Begun, false, false, false, {}, [], false, true)
  }

  // ---------------------------------------------------------------- an end is reached

  /** How many operations an attempt can still make, at most, by its phase and by its numbers of files. */
  function Bound(phase: Phase, temporary: nat, published: nat, files: nat, moves: nat): int {
    match phase
    case Begun => temporary + published + 2 * files + 2 * moves + 7
    case Checking => temporary + published + 2 * files + 2 * moves + 6
    case Staging(next) => temporary + published + 2 * (files - next) + 2 * moves + 5
    case Verifying => temporary + published + 2 * moves + 4
    case Publishing(next) => temporary + published + 2 * (moves - next) + 3
    case Activating => temporary + 2
    case RollingBack => temporary + published + 2
    case Cleaning => temporary + 1
    case Releasing => 1
    case Ended => 0
  }

  function Left(t: Attempt): int {
    Bound(t.phase, |t.temporary|, |t.published|, |t.pack.keys|, |Publication(t.pack)|)
  }

  lemma OneFileMore(files: set<string>, file: string)
    ensures |files + {file}| <= |files| + 1 && |files - {file}| <= |files|
    ensures file in files ==> |files - {file}| == |files| - 1
  {
  }

  lemma CleaningLeft(t: Attempt)
    ensures Left(ToCleaning(t)) == |t.temporary| + 1
    ensures 0 <= Left(Fail(t)) <= |t.temporary| + |t.published| + 2
  {
    hide Publication;
  }

  /** The counters of an attempt are within its package. */
  predicate InBounds(t: Attempt) {
    && (t.phase.Staging? ==> t.phase.next <= |t.pack.keys|)
    && (t.phase.Publishing? ==> t.phase.next <= |Publication(t.pack)|)
    && (t.phase.Activating? ==> t.committed || t.published == [])
    && (t.phase.RollingBack? ==> t.published != [])
  }

  lemma FlagsBound(t: Attempt)
    requires FlagsRight(t)
    ensures WellFormed(t.pack) && InBounds(t) && Left(t) >= 0
  {
    hide WellFormed, Publication;
  }

  lemma FewerLeft(verify: Verifier, store: Store, id: Id, t: Attempt, outcome: Outcome, file: string)
    requires WellFormed(t.pack) && InBounds(t) && !t.phase.Ended? && (t.phase.Cleaning? ==> file in t.temporary)
    ensures Left(Operate(verify, store, id, t, outcome, file).attempt) < Left(t)
  {
    assert t.phase.Staging? && t.phase.next < |t.pack.keys| ==> t.pack.keys[t.phase.next] in t.pack.keys;
    FewerBefore(verify, store, id, t, outcome);
    FewerAfter(store, id, t, outcome, file);
    hide InBounds, WellFormed, PrefixEmpty, StagedFiles, Publication, Left, TakeLease, CheckPrefix, StageNext,
         VerifyStaged,
         PublishNext, RollBackNext, CleanOne, ReleaseLease;
  }

  lemma FewerBefore(verify: Verifier, store: Store, id: Id, t: Attempt, outcome: Outcome)
    requires InBounds(t)
    requires t.phase.Staging? && t.phase.next < |t.pack.keys| ==> t.pack.keys[t.phase.next] in t.pack.bodies
    ensures t.phase.Begun? ==> Left(TakeLease(store, id, t, outcome).attempt) < Left(t)
    ensures t.phase.Checking? ==> Left(CheckPrefix(store, t, outcome)) < Left(t)
    ensures t.phase.Staging? ==> Left(StageNext(store, id, t, outcome, t.phase.next).attempt) < Left(t)
    ensures t.phase.Verifying? ==> Left(VerifyStaged(verify, store, id, t, outcome)) < Left(t)
  {
    if t.phase.Staging? {
      if t.phase.next < |t.pack.keys| {
        FewerToStage(store, id, t, outcome);
      }
      hide Publication, TakeLease, CheckPrefix, VerifyStaged, Fail, ToCleaning;
    } else if t.phase.Verifying? {
      FewerToVerify(verify, store, id, t, outcome);
    } else {
      FewerToCheck(store, id, t, outcome);
      hide *;
    }
  }

  lemma FewerToVerify(verify: Verifier, store: Store, id: Id, t: Attempt, outcome: Outcome)
    requires t.phase.Verifying?
    ensures Left(VerifyStaged(verify, store, id, t, outcome)) < Left(t)
  {
    hide StagedFiles, Publication, Fail, ToCleaning;
    CleaningLeft(t);
  }

  lemma FewerToCheck(store: Store, id: Id, t: Attempt, outcome: Outcome)
    ensures t.phase.Begun? ==> Left(TakeLease(store, id, t, outcome).attempt) < Left(t)
    ensures t.phase.Checking? ==> Left(CheckPrefix(store, t, outcome)) < Left(t)
  {
    CleaningLeft(t);
    hide PrefixEmpty, Publication, Fail, ToCleaning;
    if t.phase.Begun? {
      hide CheckPrefix;
      var t' := TakeLease(store, id, t, outcome).attempt;
      assert t'.phase.Ended? || t' == t.(phase := Checking, leased := true);
    } else if t.phase.Checking? {
      hide TakeLease;
      var t' := CheckPrefix(store, t, outcome);
      assert t' == Fail(t) || t' == t.(phase := Staging(0), checked := true);
    }
  }

  lemma FewerAfter(store: Store, id: Id, t: Attempt, outcome: Outcome, file: string)
    requires InBounds(t)
    ensures t.phase.Publishing? ==> Left(PublishNext(store, id, t, outcome, t.phase.next).attempt) < Left(t)
    ensures t.phase.Activating? ==> Left(Fail(t)) < Left(t) && Left(ToCleaning(t)) < Left(t)
    ensures t.phase.RollingBack? ==> Left(RollBackNext(store, t, outcome).attempt) < Left(t)
    ensures t.phase.Cleaning? && file in t.temporary ==> Left(CleanOne(store, id, t, outcome, file).attempt) < Left(t)
    ensures t.phase.Releasing? ==> Left(ReleaseLease(store, t, outcome).attempt) < Left(t)
  {
    if t.phase.Publishing? {
      FewerToPublish(store, id, t, outcome);
    } else if t.phase.RollingBack? {
      FewerToRollBack(store, t, outcome);
    } else if t.phase.Cleaning? && file in t.temporary {
      FewerToClean(store, id, t, outcome, file);
    } else {
      FewerAtEnd(store, t, outcome);
      hide *;
    }
  }

  lemma FewerAtEnd(store: Store, t: Attempt, outcome: Outcome)
    requires InBounds(t)
    ensures t.phase.Activating? ==> Left(Fail(t)) < Left(t) && Left(ToCleaning(t)) < Left(t)
    ensures t.phase.Releasing? ==> Left(ReleaseLease(store, t, outcome).attempt) < Left(t)
  {
    hide Publication, ToCleaning;
    CleaningLeft(t);
  }

  lemma FewerToClean(store: Store, id: Id, t: Attempt, outcome: Outcome, file: string)
    requires t.phase.Cleaning? && file in t.temporary
    ensures Left(CleanOne(store, id, t, outcome, file).attempt) < Left(t)
  {
    OneFileMore(t.temporary, file);
    CleaningLeft(t.(temporary := t.temporary - {file}, tidy := t.tidy && outcome.Works?));
    hide Publication, ToCleaning;
  }

  lemma FewerToStage(store: Store, id: Id, t: Attempt, outcome: Outcome)
    requires t.phase.Staging? && t.phase.next < |t.pack.keys| && t.pack.keys[t.phase.next] in t.pack.bodies
    ensures Left(StageNext(store, id, t, outcome, t.phase.next).attempt) < Left(t)
  {
    hide Publication, Fail, ToCleaning;
    var next := t.phase.next;
    var remembered := t.(temporary := t.temporary + {t.pack.keys[next]});
    OneFileMore(t.temporary, t.pack.keys[next]);
    CleaningLeft(remembered);
  }

  lemma FewerToPublish(store: Store, id: Id, t: Attempt, outcome: Outcome)
    requires t.phase.Publishing? && t.phase.next <= |Publication(t.pack)|
    ensures Left(PublishNext(store, id, t, outcome, t.phase.next).attempt) < Left(t)
  {
    hide Publication, Fail, ToCleaning, MovedStore;
    CleaningLeft(t);
    var next, order := t.phase.next, Publication(t.pack);
    var t' := PublishNext(store, id, t, outcome, next).attempt;
    if next < |order| && t' != Fail(t) {
      OneFileMore(t.temporary, order[next]);
      assert t' == MovedAttempt(t, order[next], next + 1, outcome.removed);
      assert |t'.published| == |t.published| + 1 && t'.pack == t.pack;
    }
  }

  lemma FewerToRollBack(store: Store, t: Attempt, outcome: Outcome)
    requires t.phase.RollingBack? && t.published != []
    ensures Left(RollBackNext(store, t, outcome).attempt) < Left(t)
  {
    hide Publication, ToCleaning;
    CleaningLeft(t.(published := t.published[..|t.published| - 1], tidy := t.tidy && outcome.Works?));
  }

  /** Whatever fails, an attempt makes no more operations than this, which depends on its package only. */
  lemma {:induction false} AttemptsEnd(verify: Verifier, store: Store, id: Id, t: Attempt, turns: seq<Turn>)
    requires AttemptRight(verify, store, id, t) && AlonePossible(verify, store, id, t, turns)
    ensures |turns| <= Left(t)
    decreases |turns|
  {
    hide AttemptRight, Operate, WellFormed, Left;
    FlagsOf(verify, store, id, t);
    FlagsBound(t);
    hide FlagsRight;
    if turns != [] {
      var After(store', t') := Operate(verify, store, id, t, turns[0].outcome, turns[0].file);
      OperateKeeps(verify, store, id, t, turns[0].outcome, turns[0].file);
      FewerLeft(verify, store, id, t, turns[0].outcome, turns[0].file);
      AttemptsEnd(verify, store', id, t', turns[1..]);
    }
  }

  // ---------------------------------------------------------------- without faults

  /** The manifest is not being imported, nothing is published under it, it verifies, and this is no trial. */
  ghost predicate Allowed(verify: Verifier, before: Store, t: Attempt) {
    && Lease(t.pack.manifestId) !in before && PrefixEmpty(before, t.pack.manifestId)
    && verify(t.pack.manifestId, t.pack.bodies) && !t.dryRun
  }

  predicate Doomed(t: Attempt) {
    t.phase.RollingBack? || ((t.phase.Cleaning? || t.phase.Releasing? || t.phase.Ended?) && !t.committed)
  }

  ghost predicate OnlyFiles(store: Store, t: Attempt) {
    t.checked ==> forall file :: Published(t.pack.manifestId, file) in store ==> file in t.pack.bodies
  }

  ghost predicate Faultless(verify: Verifier, before: Store, store: Store, id: Id, t: Attempt) {
    && AttemptRight(verify, store, id, t) && Restorable(before, store, id, t) && OnlyFiles(store, t) && t.tidy
    && (t.committed ==> Allowed(verify, before, t)) && (Doomed(t) ==> !Allowed(verify, before, t))
  }

  lemma StaysTidy(verify: Verifier, store: Store, id: Id, t: Attempt, file: string)
    requires AttemptRight(verify, store, id, t) && t.tidy && !t.phase.Ended?
    ensures Operate(verify, store, id, t, Works(true), file).attempt.tidy
  {
    FlagsOf(verify, store, id, t);
    assert WellFormed(t.pack);
    hide AttemptRight, FlagsRight, WellFormed, PrefixEmpty, Publication, StagedFiles, MovedStore;
  }

  lemma StaysInFiles(verify: Verifier, store: Store, id: Id, t: Attempt, file: string)
    requires AttemptRight(verify, store, id, t) && OnlyFiles(store, t) && !t.phase.Ended?
    ensures var After(store', t') := Operate(verify, store, id, t, Works(true), file); OnlyFiles(store', t')
  {
    PublicationFacts(t.pack);
    hide WellFormed, Publication, StagedFiles, Complete;
  }

  /** The next file to publish is staged, and its destination is free. */
  lemma NextIsFree(verify: Verifier, store: Store, id: Id, t: Attempt)
    requires AttemptRight(verify, store, id, t) && t.phase.Publishing? && t.phase.next < |Publication(t.pack)|
    ensures var key := Publication(t.pack)[t.phase.next];
            Staged(id, key) in store && Published(t.pack.manifestId, key) !in store
  {
    PublicationFacts(t.pack);
    var order, next := Publication(t.pack), t.phase.next;
    assert order[next] in order && order[next] !in order[..next];
    hide WellFormed, Publication, Complete;
  }

  lemma SamePrefix(before: Store, store: Store, m: Id)
    requires forall file :: SameAt(before, store, Published(m, file))
    ensures PrefixEmpty(store, m) <==> PrefixEmpty(before, m)
  {
    if PrefixEmpty(before, m) {
      forall path | path in store ensures !(path.Published? && path.manifestId == m) {
        assert path.Published? ==> path == Published(path.manifestId, path.file);
      }
    }
    if PrefixEmpty(store, m) {
      PrefixTransfers(before, store, m);
    }
  }

  lemma DecidesRight(verify: Verifier, before: Store, store: Store, id: Id, t: Attempt, file: string)
    requires Faultless(verify, before, store, id, t) && !t.phase.Ended?
    ensures var t' := Operate(verify, store, id, t, Works(true), file).attempt;
            (t'.committed ==> Allowed(verify, before, t')) && (Doomed(t') ==> !Allowed(verify, before, t'))
  {
    FlagsOf(verify, store, id, t);
    OperateFacts(verify, store, id, t, Works(true), file);
    if t.phase.Checking? {
      SamePrefix(before, store, t.pack.manifestId);
    } else if t.phase.Verifying? {
      StagedIsPackage(verify, store, id, t);
    } else if t.phase.Publishing? && t.phase.next < |Publication(t.pack)| {
      NextIsFree(verify, store, id, t);
    }
    hide WellFormed, PrefixEmpty, StagedFiles, Publication, Complete, MovedStore, OnlyFiles;
  }

  lemma StagedIsPackage(verify: Verifier, store: Store, id: Id, t: Attempt)
    requires AttemptRight(verify, store, id, t) && t.phase.Verifying? && t.tidy
    ensures StagedFiles(store, id) == t.pack.bodies
  {
    hide WellFormed, Complete;
  }

  lemma {:induction false} StaysFaultless(verify: Verifier, before: Store, store: Store, id: Id, t: Attempt,
                                          turns: seq<Turn>)
    requires Faultless(verify, before, store, id, t) && AlonePossible(verify, store, id, t, turns)
    requires forall i :: 0 <= i < |turns| ==> turns[i].outcome == Works(true)
    ensures var end := Alone(verify, store, id, t, turns);
            Faultless(verify, before, end.store, id, end.attempt) && end.attempt.pack == t.pack
              && end.attempt.dryRun == t.dryRun
    decreases |turns|
  {
    hide AttemptRight, Restorable, Operate, WellFormed, OnlyFiles, Allowed, Doomed;
    if turns != [] {
      var After(store', t') := Operate(verify, store, id, t, turns[0].outcome, turns[0].file);
      FlagsOf(verify, store, id, t);
      OperateFacts(verify, store, id, t, turns[0].outcome, turns[0].file);
      OperateKeeps(verify, store, id, t, turns[0].outcome, turns[0].file);
      TurnKeeps(verify, before, store, id, t, turns[0].outcome, turns[0].file);
      StaysTidy(verify, store, id, t, turns[0].file);
      StaysInFiles(verify, store, id, t, turns[0].file);
      DecidesRight(verify, before, store, id, t, turns[0].file);
      StaysFaultless(verify, before, store', id, t', turns[1..]);
    }
  }

  /**
    An import that meets no fault publishes exactly when the manifest is not leased, nothing is published under
    it, its files verify, and it is no trial run. Then the store has gained exactly the files of the package, with
    their bytes, and otherwise it is as it was. Whatever fails, it ends.
   */
  lemma FaultlessImport(verify: Verifier, before: Store, id: Id, pack: Package, dryRun: bool, turns: seq<Turn>)
    requires WellFormed(pack) && forall file :: Staged(id, file) !in before
    requires AlonePossible(verify, before, id, First(pack, dryRun), turns)
    ensures |turns| <= 2 * |pack.keys| + 2 * |Publication(pack)| + 7
    ensures (forall i :: 0 <= i < |turns| ==> turns[i].outcome == Works(true))
            && Alone(verify, before, id, First(pack, dryRun), turns).attempt.phase.Ended? ==>
              var store := Alone(verify, before, id, First(pack, dryRun), turns).store;
              if && Lease(pack.manifestId) !in before && (forall file :: Published(pack.manifestId, file) !in before)
                 && verify(pack.manifestId, pack.bodies) && !dryRun
              then
                && (forall file :: file in pack.bodies ==>
                      Published(pack.manifestId, file) in store
                      && store[Published(pack.manifestId, file)] == File(pack.bodies[file]))
                && (forall path ::
                      path in store
                        && !(path.Published? && path.manifestId == pack.manifestId && path.file in pack.bodies) ==>
                      path in before && store[path] == before[path])
                && (forall path :: path in before ==> path in store && store[path] == before[path])
              else store == before
  {
    var t := First(pack, dryRun);
    BeginRight(verify, before, id, pack, dryRun);
    AttemptsEnd(verify, before, id, t, turns);
    if forall i :: 0 <= i < |turns| ==> turns[i].outcome == Works(true) {
      StaysFaultless(verify, before, before, id, t, turns);
      var end := Alone(verify, before, id, t, turns);
      hide Alone, AlonePossible, WellFormed, AttemptRight, Restorable;
      if end.attempt.phase.Ended? {
        AllowedExactly(verify, before, end.attempt);
        if end.attempt.committed {
          PublishedExactly(verify, before, end.store, id, end.attempt);
        } else {
          EndIsBefore(verify, before, end.store, id, end.attempt);
        }
      }
    }
  }

  lemma AllowedExactly(verify: Verifier, before: Store, t: Attempt)
    ensures Allowed(verify, before, t) <==>
            && Lease(t.pack.manifestId) !in before && (forall file :: Published(t.pack.manifestId, file) !in before)
            && verify(t.pack.manifestId, t.pack.bodies) && !t.dryRun
  {
    if forall file :: Published(t.pack.manifestId, file) !in before {
      forall path | path in before ensures !(path.Published? && path.manifestId == t.pack.manifestId) {
        assert path.Published? ==> path == Published(path.manifestId, path.file);
      }
    }
  }

  lemma PublishedExactly(verify: Verifier, before: Store, store: Store, id: Id, t: Attempt)
    requires Faultless(verify, before, store, id, t) && t.phase.Ended? && t.committed
    requires forall file :: Staged(id, file) !in before
    ensures forall file :: file in t.pack.bodies ==>
              Published(t.pack.manifestId, file) in store
              && store[Published(t.pack.manifestId, file)] == File(t.pack.bodies[file])
    ensures forall path ::
              path in store
                && !(path.Published? && path.manifestId == t.pack.manifestId && path.file in t.pack.bodies) ==>
              path in before && store[path] == before[path]
    ensures forall path :: path in before ==> path in store && store[path] == before[path]
  {
    hide WellFormed;
    forall path
      ensures path in before ==> path in store && store[path] == before[path]
      ensures path in store
              && !(path.Published? && path.manifestId == t.pack.manifestId && path.file in t.pack.bodies) ==>
                path in before && store[path] == before[path]
    {
      if Own(id, t, path) {
        assert path.Staged? ==> path == Staged(id, path.file);
        assert path.Published? ==> path == Published(t.pack.manifestId, path.file);
      } else {
        assert SameAt(before, store, path);
      }
    }
  }
}
