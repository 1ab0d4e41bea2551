/**
  Staged import of an exported backup point into a shared key store, as a state machine over the
  store operations of any number of attempts. Any operation may fail, any attempt may crash between
  two operations, and attempts for the same manifest may run at the same time.
 */
module Imports {
  import opened PointFiles
  import opened Streams
  import opened Wrappers

  type Id = string

  datatype Path =
    | Lease(manifestId: Id) | Staged(attempt: Id, file: string) | Published(manifestId: Id, file: string)
    | Other(key: string)

  /** A stored value: file contents, or the body of a lease, which names its holder. */
  datatype Value = File(bytes: Bytes) | Holder(attempt: Id)

  type Store = map<Path, Value>

  /** A validated package: its files in order, each key once. */
  datatype Package = Package(manifestId: Id, keys: seq<string>, bodies: map<string, Bytes>)

  ghost predicate WellFormed(p: Package) {
    && (forall i, j :: 0 <= i < j < |p.keys| ==> p.keys[i] != p.keys[j])
    && (forall k :: k in p.keys <==> k in p.bodies)
    && MARKER in p.keys && MANIFEST in p.keys
  }

  function Without(keys: seq<string>, key: string): seq<string> {
    if keys == [] then [] else (if keys[0] == key then [] else [keys[0]]) + Without(keys[1..], key)
  }

  /** Files are published in package order, the commit marker strictly last. */
  function Publication(p: Package): seq<string> {
    Without(p.keys, MARKER) + [MARKER]
  }

  datatype Phase =
    | Begun | Checking | Staging(next: nat) | Verifying | Publishing(next: nat) | Activating
    | RollingBack | Cleaning | Releasing | Ended

  /** `tidy` records that every delete so far, including those inside moves, took effect. */
  datatype Attempt = Attempt(
    pack: Package, dryRun: bool, phase: Phase, leased: bool, checked: bool, verified: bool,
    temporary: set<string>, published: seq<string>, committed: bool, tidy: bool)

  /** A crashed attempt takes no further step, not even to clean up. */
  datatype System = System(store: Store, attempts: map<Id, Attempt>, crashed: set<Id>)

  /** How one store operation ends; a failed plain write may leave partial contents behind. */
  datatype Outcome = Works(removed: bool) | Throws(partial: Option<Bytes>)

  datatype Action =
    | Begin(id: Id, pack: Package, dryRun: bool)
    | Step(id: Id, outcome: Outcome, file: string)
    | Crash(id: Id)

  /** The verdict of backup verification on the files of a manifest. */
  type Verifier = (Id, map<string, Bytes>) -> bool

  ghost function StagedFiles(store: Store, id: Id): map<string, Bytes> {
    map path | path in store && path.Staged? && path.attempt == id && store[path].File? ::
        path.file := store[path].bytes
  }

  predicate PrefixEmpty(store: Store, manifestId: Id) {
    forall path | path in store :: !(path.Published? && path.manifestId == manifestId)
  }

  ghost predicate Enabled(y: System, a: Action) {
    match a
    case Begin(id, pack, _) => id !in y.attempts && WellFormed(pack) && forall file :: Staged(id, file) !in y.store
    case Step(id, _, file) =>
      && id in y.attempts && id !in y.crashed && !y.attempts[id].phase.Ended?
      && (y.attempts[id].phase.Cleaning? ==> file in y.attempts[id].temporary)
    case Crash(id) => id in y.attempts && id !in y.crashed
  }

  /** What no operation after the lease was taken and before it is released may change. */
  predicate Carries(u: Attempt, t: Attempt) {
    && u.pack == t.pack && u.dryRun == t.dryRun && u.committed == t.committed && u.checked == t.checked
    && !u.phase.Begun? && !u.phase.Ended?
  }

  /** A failure inside the leased region rolls back, unless the marker is already visible. */
  function Fail(t: Attempt): (u: Attempt)
    ensures Carries(u, t)
  {
    if t.committed || t.published == [] then ToCleaning(t) else t.(phase := RollingBack)
  }

  function ToCleaning(t: Attempt): (u: Attempt)
    ensures Carries(u, t)
  {
    t.(phase := if t.temporary == {} then Releasing else Cleaning)
  }

  /** A file that moved to its destination, and the attempt that moved it. */
  function MovedAttempt(t: Attempt, key: string, next: nat, removed: bool): Attempt {
    t.(phase := Publishing(next), temporary := t.temporary - {key}, published := t.published + [key],
       committed := key == MARKER, tidy := t.tidy && removed)
  }

  function MovedStore(store: Store, id: Id, m: Id, key: string, removed: bool): Store
    requires Staged(id, key) in store
  {
    var moved := store[Published(m, key) := store[Staged(id, key)]];
    if removed then moved - {Staged(id, key)} else moved
  }

  /** The store and the attempt after one operation. */
  datatype After = After(store: Store, attempt: Attempt)

  /** Taking the lease: a manifest that is leased already ends the attempt at once. */
  function TakeLease(store: Store, id: Id, t: Attempt, outcome: Outcome): After {
    if outcome.Throws? || Lease(t.pack.manifestId) in store then After(store, t.(phase := Ended))
    else After(store[Lease(t.pack.manifestId) := Holder(id)], t.(phase := Checking, leased := true))
  }

  /** Only an empty destination may be imported to. */
  function CheckPrefix(store: Store, t: Attempt, outcome: Outcome): Attempt {
    if outcome.Throws? || !PrefixEmpty(store, t.pack.manifestId) then Fail(t)
       else t.(phase := Staging(0), checked := true)
  }

  function StageNext(store: Store, id: Id, t: Attempt, outcome: Outcome, next: nat): (a: After)
    requires next < |t.pack.keys| ==> t.pack.keys[next] in t.pack.bodies
    ensures Carries(a.attempt, t)
  {
    if next >= |t.pack.keys| then After(store, t.(phase := Verifying))
    else
      var key := t.pack.keys[next];
      var remembered := t.(temporary := t.temporary + {key});
      var stored := if outcome.Works? then Some(t.pack.bodies[key]) else outcome.partial;
      After(if stored.Some? then store[Staged(id, key) := File(stored.value)] else store,
            if outcome.Works? then remembered.(phase := Staging(next + 1)) else Fail(remembered))
  }

  ghost function VerifyStaged(verify: Verifier, store: Store, id: Id, t: Attempt, outcome: Outcome): (u: Attempt)
    ensures Carries(u, t)
  {
    if outcome.Throws? || !verify(t.pack.manifestId, StagedFiles(store, id)) then Fail(t)
    else t.(phase := if t.dryRun then Activating else Publishing(0), verified := true)
  }

  /** An exclusive move: it fails when the source is missing, and refuses an occupied destination. */
  function PublishNext(store: Store, id: Id, t: Attempt, outcome: Outcome, next: nat): After {
    if next >= |Publication(t.pack)| then After(store, t.(phase := Activating))
    else
      var key := Publication(t.pack)[next];
      if outcome.Throws? || Staged(id, key) !in store
         || Published(t.pack.manifestId, key) in store then After(store, Fail(t))
      else After(MovedStore(store, id, t.pack.manifestId, key, outcome.removed),
                 MovedAttempt(t, key, next + 1, outcome.removed))
  }

  /** Published files are deleted newest first; a failing delete is passed over. */
  function RollBackNext(store: Store, t: Attempt, outcome: Outcome): (a: After)
    requires !t.phase.Begun? && !t.phase.Ended?
    ensures Carries(a.attempt, t)
  {
    if t.published == [] then After(store, ToCleaning(t))
    else
      var n := |t.published| - 1;
      var rest := t.(published := t.published[..n], tidy := t.tidy && outcome.Works?);
      After(if outcome.Works? then store - {Published(t.pack.manifestId, t.published[n])} else store,
       if n == 0 then ToCleaning(rest) else rest)
  }

  function CleanOne(store: Store, id: Id, t: Attempt, outcome: Outcome, file: string): (a: After)
    ensures Carries(a.attempt, t)
  {
    After(if outcome.Works? then store - {Staged(id, file)} else store,
     ToCleaning(t.(temporary := t.temporary - {file}, tidy := t.tidy && outcome.Works?)))
  }

  function ReleaseLease(store: Store, t: Attempt, outcome: Outcome): After {
    After(if outcome.Works? then store - {Lease(t.pack.manifestId)} else store,
     t.(phase := Ended, leased := false, tidy := t.tidy && outcome.Works?))
  }

  /** One store operation of an attempt. */
  ghost function Operate(verify: Verifier, store: Store, id: Id, t: Attempt, outcome: Outcome, file: string): After
    requires WellFormed(t.pack)
  {
    match t.phase
    case Begun => TakeLease(store, id, t, outcome)
    case Checking => After(store, CheckPrefix(store, t, outcome))
    case Staging(next) => StageNext(store, id, t, outcome, next)
    case Verifying => After(store, VerifyStaged(verify, store, id, t, outcome))
    case Publishing(next) => PublishNext(store, id, t, outcome, next)
    case Activating => After(store, if outcome.Throws? then Fail(t) else ToCleaning(t))
    case RollingBack => RollBackNext(store, t, outcome)
    case Cleaning => CleanOne(store, id, t, outcome, file)
    case Releasing => ReleaseLease(store, t, outcome)
    case Ended => After(store, t)
  }

  ghost function Next(verify: Verifier, y: System, a: Action): System
    requires Enabled(y, a) && AllWellFormed(y)
  {
    match a
    case Begin(id, pack, dryRun) =>
      y.(attempts := y.attempts[id := Attempt(pack, dryRun, Begun, false, false, false, {}, [], false, true)])
    case Step(id, outcome, file) =>
      var After(store, t) := Operate(verify, y.store, id, y.attempts[id], outcome, file);
      y.(store := store, attempts := y.attempts[id := t])
    case Crash(id) => y.(crashed := y.crashed + {id})
  }

  ghost predicate AllWellFormed(y: System) {
    forall id :: id in y.attempts ==> WellFormed(y.attempts[id].pack)
  }

  // ---------------------------------------------------------------- what every attempt keeps

  lemma {:induction false} WithoutFacts(keys: seq<string>, key: string)
    requires forall i, j :: 0 <= i < j < |keys| ==> keys[i] != keys[j]
    ensures var rest := Without(keys, key);
            && (forall k :: k in rest <==> k in keys && k != key)
            && (forall i, j :: 0 <= i < j < |rest| ==> rest[i] != rest[j])
    decreases |keys|
  {
    if keys != [] {
      WithoutFacts(keys[1..], key);
      var rest := Without(keys[1..], key);
      var all := Without(keys, key);
      forall i, j | 0 <= i < j < |all| ensures all[i] != all[j] {
        if keys[0] != key {
          assert all[j] == rest[j - 1] && all[j] in rest && all[j] in keys[1..];
          assert i > 0 ==> all[i] == rest[i - 1];
        }
      }
      forall k ensures k in Without(keys, key) <==> k in keys && k != key {
        assert k in keys <==> k == keys[0] || k in keys[1..];
      }
    }
  }

  /** The publication order is the files of the package, each once, the marker last. */
  lemma PublicationFacts(p: Package)
    requires WellFormed(p)
    ensures var order := Publication(p);
            && (forall k :: k in order <==> k in p.bodies)
            && (forall i, j :: 0 <= i < j < |order| ==> order[i] != order[j])
            && |order| >= 1 && (forall i :: 0 <= i < |order| ==> (order[i] == MARKER <==> i == |order| - 1))
  {
    WithoutFacts(p.keys, MARKER);
  }

  /** Before any rollback. */
  predicate Forward(t: Attempt) {
    t.phase.Checking? || t.phase.Staging? || t.phase.Verifying? || t.phase.Publishing? || t.phase.Activating?
  }

  ghost predicate FlagsRight(t: Attempt) {
    && WellFormed(t.pack)
    && (t.leased <==> !t.phase.Begun? && !t.phase.Ended?)
    && (t.committed ==> t.checked && t.verified && !t.dryRun)
    && (t.published != [] ==> t.checked && t.verified && !t.dryRun)
    && match t.phase
       case Begun => !t.checked && t.temporary == {} && t.published == [] && !t.committed && t.tidy
       case Checking => !t.checked && t.temporary == {} && t.published == [] && !t.committed && t.tidy
       case Staging(next) =>
         && next <= |t.pack.keys| && t.checked && t.published == [] && !t.committed && t.tidy
         && (forall k :: k in t.temporary <==> k in t.pack.keys[..next])
       case Verifying => t.checked && t.published == [] && !t.committed && t.tidy && t.temporary == t.pack.bodies.Keys
       case Publishing(next) =>
         && next <= |Publication(t.pack)| && t.checked && t.verified && !t.dryRun
         && t.published == Publication(t.pack)[..next] && (t.committed <==> next == |Publication(t.pack)|)
         && (forall k :: k in t.temporary <==> k in t.pack.bodies && k !in Publication(t.pack)[..next])
       case Activating => t.checked && t.verified && (t.committed || (t.dryRun && t.published == []))
       case RollingBack => t.checked && !t.committed && t.published != [] && MARKER !in t.published
       case Cleaning => t.temporary != {} && (t.committed || t.published == [])
       case Releasing => t.temporary == {} && (t.committed || t.published == [])
       case Ended => t.temporary == {} && (t.committed || t.published == [])
  }

  ghost predicate LeaseRight(store: Store, id: Id, t: Attempt) {
    t.leased ==> Lease(t.pack.manifestId) in store && store[Lease(t.pack.manifestId)] == Holder(id)
  }

  ghost predicate StagedRight(store: Store, id: Id, t: Attempt) {
    && (t.tidy ==> forall file :: Staged(id, file) in store ==> file in t.temporary)
    && (t.phase.Staging? || t.phase.Verifying? || t.phase.Publishing? ==>
          forall file :: file in t.temporary ==>
            file in t.pack.bodies && Staged(id, file) in store && store[Staged(id, file)] == File(t.pack.bodies[file]))
  }

  /** Every file of the package is published with its bytes. */
  ghost predicate Complete(store: Store, p: Package) {
    forall file :: file in p.bodies ==>
      Published(p.manifestId, file) in store && store[Published(p.manifestId, file)] == File(p.bodies[file])
  }

  ghost predicate PrefixRight(store: Store, t: Attempt) {
    var m := t.pack.manifestId;
    && (t.committed ==> Complete(store, t.pack))
    && (t.leased && t.checked && !t.committed ==>
          && Published(m, MARKER) !in store
          && (t.tidy || Forward(t) ==> forall file :: Published(m, file) in store ==> file in t.published)
          && (Forward(t) ==> forall file :: file in t.published ==>
                file in t.pack.bodies && Published(m, file) in store
                  && store[Published(m, file)] == File(t.pack.bodies[file])))
  }

  ghost predicate AttemptRight(verify: Verifier, store: Store, id: Id, t: Attempt) {
    && FlagsRight(t) && LeaseRight(store, id, t) && StagedRight(store, id, t) && PrefixRight(store, t)
    && (t.verified ==> verify(t.pack.manifestId, t.pack.bodies))
  }

  /** The keys an attempt may touch. */
  predicate Own(id: Id, t: Attempt, path: Path) {
    match path
    case Lease(m) => m == t.pack.manifestId
    case Staged(attempt, _) => attempt == id
    case Published(m, _) => m == t.pack.manifestId
    case Other(_) => false
  }

  ghost predicate SameAt(store: Store, store': Store, path: Path) {
    (path in store <==> path in store') && (path in store ==> store[path] == store'[path])
  }

  /**
    What one operation may change: its own keys; the lease only by taking a free one or releasing
    its own; published files only while it holds the lease, after the check, before the commit.
   */
  ghost predicate Frame(store: Store, store': Store, id: Id, t: Attempt) {
    && (forall path :: !Own(id, t, path) ==> SameAt(store, store', path))
    && (SameAt(store, store', Lease(t.pack.manifestId)) || Lease(t.pack.manifestId) !in store || t.leased)
    && ((t.leased && t.checked && !t.committed)
        || forall file :: SameAt(store, store', Published(t.pack.manifestId, file)))
  }

  lemma OperateFrame(verify: Verifier, store: Store, id: Id, t: Attempt, outcome: Outcome, file: string)
    requires FlagsRight(t)
    ensures Frame(store, Operate(verify, store, id, t, outcome, file).store, id, t)
  {
    if t.phase.Publishing? {
      PublishFrame(verify, store, id, t, outcome, file);
    } else {
      hide WellFormed, Publication, StagedFiles, PrefixEmpty, Fail, ToCleaning;
    }
  }

  lemma PublishFrame(verify: Verifier, store: Store, id: Id, t: Attempt, outcome: Outcome, file: string)
    requires FlagsRight(t) && t.phase.Publishing?
    ensures Frame(store, Operate(verify, store, id, t, outcome, file).store, id, t)
  {
    PublicationFacts(t.pack);
    hide WellFormed, Publication, Fail;
  }

  /** Failing inside the leased region keeps everything that is known about an attempt. */
  lemma FailKeeps(verify: Verifier, store: Store, id: Id, t: Attempt)
    requires FlagsRight(t) && LeaseRight(store, id, t) && PrefixRight(store, t) && Forward(t)
    requires t.tidy ==> forall file :: Staged(id, file) in store ==> file in t.temporary
    requires t.verified ==> verify(t.pack.manifestId, t.pack.bodies)
    ensures AttemptRight(verify, store, id, Fail(t))
  {
    PublicationFacts(t.pack);
  }

  /** Writing one staged file. */
  lemma StagedWrite(store: Store, id: Id, t: Attempt, key: string, bytes: Bytes)
    requires LeaseRight(store, id, t) && PrefixRight(store, t)
    ensures LeaseRight(store[Staged(id, key) := File(bytes)], id, t)
            && PrefixRight(store[Staged(id, key) := File(bytes)], t)
  {
  }

  lemma NextStaged(verify: Verifier, store: Store, id: Id, t: Attempt)
    requires AttemptRight(verify, store, id, t) && t.phase.Staging? && t.phase.next < |t.pack.keys|
    ensures var key := t.pack.keys[t.phase.next];
            AttemptRight(verify, store[Staged(id, key) := File(t.pack.bodies[key])], id,
                         t.(temporary := t.temporary + {key}, phase := Staging(t.phase.next + 1)))
  {
    var next := t.phase.next;
    var key := t.pack.keys[next];
    assert key in t.pack.keys;
    assert t.pack.keys[..next + 1] == t.pack.keys[..next] + [key];
    StagedWrite(store, id, t, key, t.pack.bodies[key]);
    hide Complete;
  }

  lemma StageOperation(verify: Verifier, store: Store, id: Id, t: Attempt, outcome: Outcome, file: string)
    requires AttemptRight(verify, store, id, t) && t.phase.Staging?
    ensures var After(store', t') := Operate(verify, store, id, t, outcome, file); AttemptRight(verify, store', id, t')
  {
    assert WellFormed(t.pack);
    hide AttemptRight, Fail, WellFormed;
    if t.phase.next >= |t.pack.keys| {
      AllStaged(verify, store, id, t);
    } else if outcome.Works? {
      NextStaged(verify, store, id, t);
    } else {
      StageFails(verify, store, id, t, outcome.partial);
    }
  }

  lemma AllStaged(verify: Verifier, store: Store, id: Id, t: Attempt)
    requires AttemptRight(verify, store, id, t) && t.phase.Staging? && t.phase.next >= |t.pack.keys|
    ensures AttemptRight(verify, store, id, t.(phase := Verifying))
  {
    assert t.pack.keys[..t.phase.next] == t.pack.keys;
    assert t.temporary == t.pack.bodies.Keys;
  }

  lemma PrefixKept(store: Store, t: Attempt, t': Attempt)
    requires PrefixRight(store, t) && t' == t.(temporary := t'.temporary)
    ensures PrefixRight(store, t')
  {
  }

  lemma FailFromStaging(verify: Verifier, store: Store, id: Id, t: Attempt)
    requires t.phase.Staging? && t.leased && t.checked && !t.committed && t.published == [] && t.temporary != {}
             && WellFormed(t.pack)
    requires LeaseRight(store, id, t) && PrefixRight(store, t)
    requires forall file :: Staged(id, file) in store ==> file in t.temporary
    requires t.verified ==> verify(t.pack.manifestId, t.pack.bodies)
    ensures AttemptRight(verify, store, id, Fail(t))
  {
  }

  lemma StageFails(verify: Verifier, store: Store, id: Id, t: Attempt, partial: Option<Bytes>)
    requires AttemptRight(verify, store, id, t) && t.phase.Staging? && t.phase.next < |t.pack.keys|
    ensures var key := t.pack.keys[t.phase.next];
            AttemptRight(verify, if partial.Some? then store[Staged(id, key) := File(partial.value)] else store, id,
                         Fail(t.(temporary := t.temporary + {key})))
  {
    var key := t.pack.keys[t.phase.next];
    var remembered := t.(temporary := t.temporary + {key});
    if partial.Some? {
      StagedWrite(store, id, t, key, partial.value);
    }
    hide Complete, WellFormed, PrefixRight;
    PrefixKept(store, t, remembered);
    if partial.Some? {
      PrefixKept(store[Staged(id, key) := File(partial.value)], t, remembered);
    }
    FailFromStaging(verify, if partial.Some? then store[Staged(id, key) := File(partial.value)]
                    else store, id, remembered);
  }

  lemma BeginOperation(verify: Verifier, store: Store, id: Id, t: Attempt, outcome: Outcome, file: string)
    requires AttemptRight(verify, store, id, t) && (t.phase.Begun? || t.phase.Checking?)
    ensures var After(store', t') := Operate(verify, store, id, t, outcome, file); AttemptRight(verify, store', id, t')
  {
    hide Complete, Fail;
    if t.phase.Checking? {
      FailKeeps(verify, store, id, t);
    }
  }

  lemma VerifyOperation(verify: Verifier, store: Store, id: Id, t: Attempt, outcome: Outcome, file: string)
    requires AttemptRight(verify, store, id, t) && t.phase.Verifying?
    ensures var After(store', t') := Operate(verify, store, id, t, outcome, file); AttemptRight(verify, store', id, t')
  {
    assert StagedFiles(store, id) == t.pack.bodies;
    FailKeeps(verify, store, id, t);
    if verify(t.pack.manifestId, t.pack.bodies) {
      VerifiedKeeps(verify, store, id, t);
    }
    hide AttemptRight, Fail, WellFormed, StagedFiles;
  }

  lemma VerifiedKeeps(verify: Verifier, store: Store, id: Id, t: Attempt)
    requires AttemptRight(verify, store, id, t) && t.phase.Verifying? && verify(t.pack.manifestId, t.pack.bodies)
    ensures var t' := t.(phase := if t.dryRun then Activating else Publishing(0), verified := true);
            AttemptRight(verify, store, id, t')
  {
    assert Publication(t.pack)[..0] == [];
    hide Complete, WellFormed;
  }

  lemma MoveFlags(t: Attempt, removed: bool)
    requires FlagsRight(t) && t.phase.Publishing? && t.phase.next < |Publication(t.pack)|
    ensures FlagsRight(MovedAttempt(t, Publication(t.pack)[t.phase.next], t.phase.next + 1, removed))
  {
    PublicationFacts(t.pack);
    var next, order := t.phase.next, Publication(t.pack);
    assert order[..next + 1] == order[..next] + [order[next]];
    hide WellFormed, Publication;
  }

  lemma MoveStaged(store: Store, id: Id, t: Attempt, key: string, removed: bool)
    requires FlagsRight(t) && StagedRight(store, id, t) && t.phase.Publishing? && Staged(id, key) in store
    ensures StagedRight(MovedStore(store, id, t.pack.manifestId, key, removed), id,
                        MovedAttempt(t, key, t.phase.next + 1, removed))
  {
    hide WellFormed, Publication;
  }

  lemma MovePrefix(store: Store, id: Id, t: Attempt, removed: bool)
    requires FlagsRight(t) && StagedRight(store, id, t) && PrefixRight(store, t) && t.leased
    requires t.phase.Publishing? && t.phase.next < |Publication(t.pack)|
             && Staged(id, Publication(t.pack)[t.phase.next]) in store
    ensures var key := Publication(t.pack)[t.phase.next];
            PrefixRight(MovedStore(store, id, t.pack.manifestId, key, removed),
                        MovedAttempt(t, key, t.phase.next + 1, removed))
  {
    PublicationFacts(t.pack);
    var next, order := t.phase.next, Publication(t.pack);
    var key, m := order[next], t.pack.manifestId;
    assert key in order && key !in order[..next] && t.published == order[..next];
    assert key in t.temporary && store[Staged(id, key)] == File(t.pack.bodies[key]);
    assert !t.committed && t.checked && Forward(t);
    hide FlagsRight, StagedRight, WellFormed, Publication;
    PublishedAfter(store, id, t, key, removed);
    hide MovedStore, PrefixRight;
    var t', store' := MovedAttempt(t, key, next + 1, removed), MovedStore(store, id, m, key, removed);
    assert t'.published == t.published + [key] && t'.pack == t.pack;
    if key == MARKER {
      assert next == |order| - 1;
      forall file | file in t.pack.bodies ensures file in t.published + [key] {
        assert file in order;
      }
      assert Complete(store', t'.pack);
    } else {
      assert MARKER !in t.published + [key];
    }
    PrefixFrom(store', t');
  }

  lemma PrefixFrom(store: Store, t: Attempt)
    requires if t.committed then Complete(store, t.pack) else Published(t.pack.manifestId, MARKER) !in store
    requires forall file :: Published(t.pack.manifestId, file) in store ==> file in t.published
    requires forall file :: file in t.published ==>
               && file in t.pack.bodies && Published(t.pack.manifestId, file) in store
               && store[Published(t.pack.manifestId, file)] == File(t.pack.bodies[file])
    ensures PrefixRight(store, t)
  {
  }

  /** What lies under the prefix after one more file moved there. */
  lemma PublishedAfter(store: Store, id: Id, t: Attempt, key: string, removed: bool)
    requires Staged(id, key) in store && key in t.pack.bodies && store[Staged(id, key)] == File(t.pack.bodies[key])
    requires PrefixRight(store, t) && t.leased && t.checked && !t.committed && Forward(t)
    ensures var store', m := MovedStore(store, id, t.pack.manifestId, key, removed), t.pack.manifestId;
            && (forall file :: Published(m, file) in store' <==> file in t.published + [key])
            && (forall file :: file in t.published + [key] ==>
                  file in t.pack.bodies && store'[Published(m, file)] == File(t.pack.bodies[file]))
  {
    hide Complete;
  }

  /** Moving one file to its destination. */
  lemma NextPublished(verify: Verifier, store: Store, id: Id, t: Attempt, removed: bool)
    requires AttemptRight(verify, store, id, t) && t.phase.Publishing? && t.phase.next < |Publication(t.pack)|
    requires Staged(id, Publication(t.pack)[t.phase.next]) in store
    ensures var key := Publication(t.pack)[t.phase.next];
            AttemptRight(verify, MovedStore(store, id, t.pack.manifestId, key, removed), id,
                         MovedAttempt(t, key, t.phase.next + 1, removed))
  {
    MoveFlags(t, removed);
    MoveStaged(store, id, t, Publication(t.pack)[t.phase.next], removed);
    MovePrefix(store, id, t, removed);
    hide FlagsRight, StagedRight, PrefixRight;
  }

  lemma AllPublished(verify: Verifier, store: Store, id: Id, t: Attempt)
    requires AttemptRight(verify, store, id, t) && t.phase.Publishing? && t.phase.next >= |Publication(t.pack)|
    ensures AttemptRight(verify, store, id, t.(phase := Activating))
  {
    hide Complete, WellFormed;
  }

  lemma PublishOperation(verify: Verifier, store: Store, id: Id, t: Attempt, outcome: Outcome, file: string)
    requires AttemptRight(verify, store, id, t) && t.phase.Publishing?
    ensures var After(store', t') := Operate(verify, store, id, t, outcome, file); AttemptRight(verify, store', id, t')
  {
    FlagsOf(verify, store, id, t);
    hide AttemptRight, FlagsRight, WellFormed, PublishNext;
    PublishKeeps(verify, store, id, t, outcome);
  }

  lemma FailOfPublishing(verify: Verifier, store: Store, id: Id, t: Attempt)
    requires AttemptRight(verify, store, id, t) && t.phase.Publishing?
    ensures AttemptRight(verify, store, id, Fail(t))
  {
    FailKeeps(verify, store, id, t);
    hide Fail, WellFormed, Complete, Publication;
  }

  lemma PublishKeeps(verify: Verifier, store: Store, id: Id, t: Attempt, outcome: Outcome)
    requires AttemptRight(verify, store, id, t) && t.phase.Publishing?
    ensures var After(store', t') := PublishNext(store, id, t, outcome, t.phase.next); AttemptRight(verify, store', id,
          t')
  {
    FailOfPublishing(verify, store, id, t);
    hide AttemptRight, Fail, Publication, MovedStore, MovedAttempt;
    var next, order := t.phase.next, Publication(t.pack);
    if next >= |order| {
      AllPublished(verify, store, id, t);
    } else if outcome.Works? && Staged(id, order[next]) in store
       && Published(t.pack.manifestId, order[next]) !in store {
      NextPublished(verify, store, id, t, outcome.removed);
    }
  }

  lemma EndOperation(verify: Verifier, store: Store, id: Id, t: Attempt, outcome: Outcome, file: string)
    requires AttemptRight(verify, store, id, t) && (t.phase.Activating? || t.phase.Cleaning? || t.phase.Releasing?)
    requires t.phase.Cleaning? ==> file in t.temporary
    ensures var After(store', t') := Operate(verify, store, id, t, outcome, file); AttemptRight(verify, store', id, t')
  {
    hide WellFormed, Publication;
  }

  lemma RollBackOperation(verify: Verifier, store: Store, id: Id, t: Attempt, outcome: Outcome, file: string)
    requires AttemptRight(verify, store, id, t) && t.phase.RollingBack?
    ensures var After(store', t') := Operate(verify, store, id, t, outcome, file); AttemptRight(verify, store', id, t')
  {
    hide WellFormed, Publication, Complete;
  }

  lemma OperateKeeps(verify: Verifier, store: Store, id: Id, t: Attempt, outcome: Outcome, file: string)
    requires AttemptRight(verify, store, id, t)
    requires t.phase.Cleaning? ==> file in t.temporary
    ensures var After(store', t') := Operate(verify, store, id, t, outcome, file); AttemptRight(verify, store', id, t')
  {
    hide AttemptRight;
    assert FlagsRight(t) by { FlagsOf(verify, store, id, t); }
    match t.phase
    case Begun | Checking => BeginOperation(verify, store, id, t, outcome, file);
    case Staging(_) => StageOperation(verify, store, id, t, outcome, file);
    case Verifying => VerifyOperation(verify, store, id, t, outcome, file);
    case Publishing(_) => PublishOperation(verify, store, id, t, outcome, file);
    case Ended =>
    case RollingBack => RollBackOperation(verify, store, id, t, outcome, file);
    case _ => EndOperation(verify, store, id, t, outcome, file);
  }

  lemma FlagsOf(verify: Verifier, store: Store, id: Id, t: Attempt)
    requires AttemptRight(verify, store, id, t)
    ensures FlagsRight(t)
  {
  }

  // ---------------------------------------------------------------- concurrent attempts

  ghost predicate CommittedFor(y: System, m: Id, id: Id) {
    id in y.attempts && y.attempts[id].committed && y.attempts[id].pack.manifestId == m
  }

  /** What was published before the first import is never touched. */
  ghost predicate Untouched(initial: Store, store: Store) {
    forall m, file :: !PrefixEmpty(initial, m) ==> SameAt(initial, store, Published(m, file))
  }

  ghost predicate Inv(verify: Verifier, initial: Store, y: System) {
    && (forall id :: id in y.attempts ==>
          && AttemptRight(verify, y.store, id, y.attempts[id])
          && (y.attempts[id].checked ==> PrefixEmpty(initial, y.attempts[id].pack.manifestId)))
    && Untouched(initial, y.store)
    && MarkersRight(initial, y)
  }

  /** An operation of one attempt keeps what is known of every other attempt. */
  lemma OthersKept(verify: Verifier, store: Store, store': Store, id: Id, t: Attempt, other: Id, u: Attempt)
    requires id != other && Frame(store, store', id, t)
    requires AttemptRight(verify, store, id, t) && AttemptRight(verify, store, other, u)
    ensures AttemptRight(verify, store', other, u)
  {
    hide FlagsRight;
    if t.pack.manifestId == u.pack.manifestId {
      assert !(t.leased && u.leased);
      OtherPrefixKept(store, store', id, t, other, u);
    } else {
      assert forall file :: SameAt(store, store', Published(u.pack.manifestId, file));
    }
    assert SameAt(store, store', Lease(u.pack.manifestId)) || !u.leased;
    forall file ensures SameAt(store, store', Staged(other, file)) {}
  }

  lemma OtherPrefixKept(store: Store, store': Store, id: Id, t: Attempt, other: Id, u: Attempt)
    requires Frame(store, store', id, t) && t.pack.manifestId == u.pack.manifestId && !(t.leased && u.leased)
    requires PrefixRight(store, t) && PrefixRight(store, u) && FlagsRight(u)
    ensures PrefixRight(store', u)
  {
    if u.committed {
      assert MARKER in u.pack.bodies;
      assert Published(u.pack.manifestId, MARKER) in store;
    }
  }

  lemma OperateFacts(verify: Verifier, store: Store, id: Id, t: Attempt, outcome: Outcome, file: string)
    requires FlagsRight(t)
    ensures var t' := Operate(verify, store, id, t, outcome, file).attempt;
            && t'.pack == t.pack && t'.dryRun == t.dryRun
            && (t.committed ==> t'.committed) && (t.checked ==> t'.checked)
            && (t'.checked && !t.checked ==> PrefixEmpty(store, t.pack.manifestId))
  {
    assert t.phase.Publishing? && t.phase.next < |Publication(t.pack)| ==> !t.committed;
    assert WellFormed(t.pack);
    hide FlagsRight, WellFormed, PrefixEmpty, StageNext, VerifyStaged, RollBackNext, CleanOne, Publication, MovedStore,
         Fail, ToCleaning;
  }

  /** The marker appears only by the move that commits. */
  lemma MarkerAppears(verify: Verifier, store: Store, id: Id, t: Attempt, outcome: Outcome, file: string, m: Id)
    requires FlagsRight(t)
    ensures var After(store', t') := Operate(verify, store, id, t, outcome, file);
            Published(m, MARKER) in store' && Published(m, MARKER) !in store ==> t'.committed && m == t.pack.manifestId
  {
    hide WellFormed, Publication, StagedFiles, PrefixEmpty, Fail, ToCleaning, FlagsRight, VerifyStaged, CheckPrefix;
  }

  lemma UntouchedMeansEmpty(initial: Store, store: Store, m: Id)
    requires Untouched(initial, store)
    ensures !PrefixEmpty(initial, m) ==> !PrefixEmpty(store, m)
  {
    if !PrefixEmpty(initial, m) {
      var path :| path in initial && path.Published? && path.manifestId == m;
      assert SameAt(initial, store, Published(m, path.file));
    }
  }

  lemma StepKeepsAttempts(verify: Verifier, initial: Store, y: System, id: Id, outcome: Outcome, file: string)
    requires Inv(verify, initial, y) && AllWellFormed(y) && Enabled(y, Step(id, outcome, file))
    ensures var z := Next(verify, y, Step(id, outcome, file));
            forall other :: other in z.attempts ==>
              && AttemptRight(verify, z.store, other, z.attempts[other])
              && (z.attempts[other].checked ==> PrefixEmpty(initial, z.attempts[other].pack.manifestId))
  {
    var t := y.attempts[id];
    assert AttemptRight(verify, y.store, id, t) && WellFormed(t.pack);
    assert FlagsRight(t) by { FlagsOf(verify, y.store, id, t); }
    var After(store', t') := Operate(verify, y.store, id, t, outcome, file);
    var z := Next(verify, y, Step(id, outcome, file));
    hide AttemptRight, Operate, FlagsRight, PrefixEmpty, WellFormed, Frame, MarkersRight;
    OperateKeeps(verify, y.store, id, t, outcome, file);
    OperateFrame(verify, y.store, id, t, outcome, file);
    OperateFacts(verify, y.store, id, t, outcome, file);
    forall other | other in z.attempts
      ensures AttemptRight(verify, z.store, other, z.attempts[other])
      ensures z.attempts[other].checked ==> PrefixEmpty(initial, z.attempts[other].pack.manifestId)
    {
      if other != id {
        OthersKept(verify, y.store, store', id, t, other, y.attempts[other]);
      } else if t'.checked && !t.checked {
        UntouchedMeansEmpty(initial, y.store, t.pack.manifestId);
      }
    }
  }

  lemma StepKeepsUntouched(verify: Verifier, initial: Store, y: System, id: Id, outcome: Outcome, file: string)
    requires Inv(verify, initial, y) && AllWellFormed(y) && Enabled(y, Step(id, outcome, file))
    ensures Untouched(initial, Next(verify, y, Step(id, outcome, file)).store)
  {
    var t, z := y.attempts[id], Next(verify, y, Step(id, outcome, file));
    assert FlagsRight(t) by { FlagsOf(verify, y.store, id, t); }
    OperateFrame(verify, y.store, id, t, outcome, file);
    hide AttemptRight, Operate, FlagsRight, PrefixEmpty, WellFormed;
    forall m, f | !PrefixEmpty(initial, m) ensures SameAt(initial, z.store, Published(m, f)) {
      assert SameAt(initial, y.store, Published(m, f));
      assert m == t.pack.manifestId ==> !t.checked;
      assert SameAt(y.store, z.store, Published(m, f));
    }
  }

  ghost predicate MarkersRight(initial: Store, y: System) {
    forall m :: Published(m, MARKER) in y.store ==> !PrefixEmpty(initial, m) || exists id :: CommittedFor(y, m, id)
  }

  lemma StepKeepsMarkers(verify: Verifier, initial: Store, y: System, id: Id, outcome: Outcome, file: string)
    requires AllWellFormed(y) && Enabled(y, Step(id, outcome, file)) && FlagsRight(y.attempts[id])
             && MarkersRight(initial, y)
    ensures MarkersRight(initial, Next(verify, y, Step(id, outcome, file)))
  {
    var t, z := y.attempts[id], Next(verify, y, Step(id, outcome, file));
    hide Operate, FlagsRight, PrefixEmpty, WellFormed, MarkersRight, AllWellFormed;
    OperateFacts(verify, y.store, id, t, outcome, file);
    forall m ensures Published(m, MARKER) in z.store && Published(m, MARKER) !in y.store ==> CommittedFor(z, m, id) {
      MarkerAppears(verify, y.store, id, t, outcome, file, m);
    }
    MarkersFollow(initial, y, z, id);
  }

  lemma MarkersFollow(initial: Store, y: System, z: System, id: Id)
    requires MarkersRight(initial, y) && id in y.attempts && id in z.attempts
             && z.attempts == y.attempts[id := z.attempts[id]]
    requires z.attempts[id].pack == y.attempts[id].pack && (y.attempts[id].committed ==> z.attempts[id].committed)
    requires forall m :: Published(m, MARKER) in z.store && Published(m, MARKER) !in y.store ==> CommittedFor(z, m, id)
    ensures MarkersRight(initial, z)
  {
    hide PrefixEmpty;
    forall m | Published(m, MARKER) in z.store && PrefixEmpty(initial, m)
      ensures exists holder :: CommittedFor(z, m, holder)
    {
      if Published(m, MARKER) in y.store {
        var holder :| CommittedFor(y, m, holder);
        assert CommittedFor(z, m, holder);
      }
    }
  }

  lemma ActionKeeps(verify: Verifier, initial: Store, y: System, a: Action)
    requires Inv(verify, initial, y) && AllWellFormed(y) && Enabled(y, a)
    ensures Inv(verify, initial, Next(verify, y, a)) && AllWellFormed(Next(verify, y, a))
  {
    var z := Next(verify, y, a);
    if a.Step? {
      StepKeepsAttempts(verify, initial, y, a.id, a.outcome, a.file);
      StepKeepsUntouched(verify, initial, y, a.id, a.outcome, a.file);
      FlagsOf(verify, y.store, a.id, y.attempts[a.id]);
      StepKeepsMarkers(verify, initial, y, a.id, a.outcome, a.file);
      OperateFacts(verify, y.store, a.id, y.attempts[a.id], a.outcome, a.file);
      hide Operate, AttemptRight, FlagsRight, MarkersRight, Untouched, WellFormed;
    } else {
      BeginOrCrashKeeps(verify, initial, y, a);
    }
  }

  lemma BeginRight(verify: Verifier, store: Store, id: Id, pack: Package, dryRun: bool)
    requires WellFormed(pack) && forall file :: Staged(id, file) !in store
    ensures AttemptRight(verify, store, id, Attempt(pack, dryRun, Begun, false, false, false, {}, [], false, true))
  {
    hide WellFormed, Complete;
  }

  lemma MarkersStay(initial: Store, y: System, z: System)
    requires MarkersRight(initial, y) && z.store == y.store
    requires forall id :: id in y.attempts ==> id in z.attempts && z.attempts[id] == y.attempts[id]
    ensures MarkersRight(initial, z)
  {
    forall m | Published(m, MARKER) in z.store && PrefixEmpty(initial, m)
      ensures exists holder :: CommittedFor(z, m, holder) {
      var holder :| CommittedFor(y, m, holder);
      assert CommittedFor(z, m, holder);
    }
  }

  lemma BeginOrCrashKeeps(verify: Verifier, initial: Store, y: System, a: Action)
    requires Inv(verify, initial, y) && AllWellFormed(y) && Enabled(y, a) && !a.Step?
    ensures Inv(verify, initial, Next(verify, y, a)) && AllWellFormed(Next(verify, y, a))
  {
    hide WellFormed, PrefixEmpty, AttemptRight, Untouched, MarkersRight;
    if a.Begin? {
      BeginRight(verify, y.store, a.id, a.pack, a.dryRun);
    }
    MarkersStay(initial, y, Next(verify, y, a));
  }

  ghost predicate Possible(verify: Verifier, y: System, actions: seq<Action>)
    requires AllWellFormed(y)
    decreases |actions|
  {
    actions == [] ||
    (Enabled(y, actions[0]) && AllWellFormed(Next(verify, y, actions[0]))
     && Possible(verify, Next(verify, y, actions[0]), actions[1..]))
  }

  ghost function Run(verify: Verifier, y: System, actions: seq<Action>): System
    requires AllWellFormed(y) && Possible(verify, y, actions)
    decreases |actions|
  {
    if actions == [] then y else Run(verify, Next(verify, y, actions[0]), actions[1..])
  }

  lemma {:induction false} RunKeeps(verify: Verifier, initial: Store, y: System, actions: seq<Action>)
    requires Inv(verify, initial, y) && AllWellFormed(y) && Possible(verify, y, actions)
    ensures Inv(verify, initial, Run(verify, y, actions))
    decreases |actions|
  {
    hide Inv, Next, Enabled;
    if actions != [] {
      ActionKeeps(verify, initial, y, actions[0]);
      RunKeeps(verify, initial, Next(verify, y, actions[0]), actions[1..]);
    }
  }

  /**
    Whatever attempts ran, failed or crashed, in whatever interleaving: a commit marker means that
    every file of a verified package is published with its bytes, unless it was there before any
    import, in which case nothing under it has changed.
   */
  lemma MarkerMeansComplete(verify: Verifier, initial: Store, actions: seq<Action>, m: Id)
    requires Possible(verify, System(initial, map[], {}), actions)
    requires Published(m, MARKER) in Run(verify, System(initial, map[], {}), actions).store
    ensures var y := Run(verify, System(initial, map[], {}), actions);
            if PrefixEmpty(initial, m) then
              exists id ::
                  CommittedFor(y, m, id) && Complete(y.store, y.attempts[id].pack)
                    && verify(m, y.attempts[id].pack.bodies)
            else forall file :: SameAt(initial, y.store, Published(m, file))
  {
    var start := System(initial, map[], {});
    assert Inv(verify, initial, start) by { StartInv(verify, initial); }
    RunKeeps(verify, initial, start, actions);
    var y := Run(verify, start, actions);
    hide Run, Possible, PrefixEmpty, Complete;
    if PrefixEmpty(initial, m) {
      var id :| CommittedFor(y, m, id);
      assert AttemptRight(verify, y.store, id, y.attempts[id]);
    }
  }

  lemma StartInv(verify: Verifier, initial: Store)
    ensures Inv(verify, initial, System(initial, map[], {}))
  {
    forall m | Published(m, MARKER) in initial ensures !PrefixEmpty(initial, m) {}
  }

  lemma LeaseOf(verify: Verifier, store: Store, id: Id, t: Attempt)
    requires AttemptRight(verify, store, id, t) && t.leased
    ensures Lease(t.pack.manifestId) in store && store[Lease(t.pack.manifestId)] == Holder(id)
  {
  }

  /** Files under a prefix change only at the hands of the attempt that holds the manifest's lease. */
  lemma OnlyHolderWrites(verify: Verifier, initial: Store, y: System, id: Id, outcome: Outcome, file: string, m: Id,
                         name: string)
    requires Inv(verify, initial, y) && AllWellFormed(y) && Enabled(y, Step(id, outcome, file))
    requires !SameAt(y.store, Next(verify, y, Step(id, outcome, file)).store, Published(m, name))
    ensures y.attempts[id].pack.manifestId == m && Lease(m) in y.store && y.store[Lease(m)] == Holder(id)
  {
    hide AttemptRight, Operate, FlagsRight, WellFormed, Untouched, MarkersRight;
    var t := y.attempts[id];
    FlagsOf(verify, y.store, id, t);
    OperateFrame(verify, y.store, id, t, outcome, file);
    LeaseOf(verify, y.store, id, t);
  }

  // ---------------------------------------------------------------- what a failed attempt leaves

  /** The keys of an attempt, its manifest's lease and prefix included, hold nothing. */
  ghost predicate Gone(store: Store, id: Id, m: Id, prefix: bool) {
    && Lease(m) !in store && (forall file :: Staged(id, file) !in store)
    && (prefix ==> forall file :: Published(m, file) !in store)
  }

  /**
    Among any other attempts: once an attempt that did not commit and whose deletes took effect has
    released its lease, no staged file, no lease and, if it passed the check, no published file is left.
   */
  lemma UncommittedLeavesNothing(verify: Verifier, initial: Store, y: System, id: Id, file: string)
    requires Inv(verify, initial, y) && AllWellFormed(y) && Enabled(y, Step(id, Works(true), file))
    requires y.attempts[id].phase.Releasing? && y.attempts[id].tidy && !y.attempts[id].committed
    ensures var t := y.attempts[id];
            Gone(Next(verify, y, Step(id, Works(true), file)).store, id, t.pack.manifestId, t.checked)
  {
    assert AttemptRight(verify, y.store, id, y.attempts[id]);
    hide WellFormed, Untouched, MarkersRight;
  }

  datatype Turn = Turn(outcome: Outcome, file: string)

  ghost predicate AlonePossible(verify: Verifier, store: Store, id: Id, t: Attempt, turns: seq<Turn>)
    decreases |turns|
  {
    turns == [] ||
    (&& WellFormed(t.pack) && !t.phase.Ended? && (t.phase.Cleaning? ==> turns[0].file in t.temporary)
     && var After(store', t') := Operate(verify, store, id, t, turns[0].outcome, turns[0].file);
        AlonePossible(verify, store', id, t', turns[1..]))
  }

  /** An attempt nothing else interferes with. */
  ghost function Alone(verify: Verifier, store: Store, id: Id, t: Attempt, turns: seq<Turn>): After
    requires AlonePossible(verify, store, id, t, turns)
    decreases |turns|
  {
    if turns == [] then After(store, t)
    else
      var After(store', t') := Operate(verify, store, id, t, turns[0].outcome, turns[0].file);
      Alone(verify, store', id, t', turns[1..])
  }

  ghost predicate Restorable(before: Store, store: Store, id: Id, t: Attempt) {
    var m := t.pack.manifestId;
    && (forall path :: !Own(id, t, path) ==> SameAt(before, store, path))
    && (t.leased ==> Lease(m) !in before)
    && (t.phase.Begun? || (t.phase.Ended? && t.tidy) ==> SameAt(before, store, Lease(m)))
    && (if t.checked then PrefixEmpty(before, m) else forall file :: SameAt(before, store, Published(m, file)))
    && (t.phase.Ended? && t.checked && t.tidy && !t.committed ==> forall file :: Published(m, file) !in store)
  }

  lemma LeaseKept(verify: Verifier, before: Store, store: Store, id: Id, t: Attempt, outcome: Outcome, file: string)
    requires FlagsRight(t) && Restorable(before, store, id, t) && !t.phase.Ended?
    ensures var After(store', t') := Operate(verify, store, id, t, outcome, file);
            && (t'.leased ==> Lease(t.pack.manifestId) !in before)
            && (t'.phase.Begun? || (t'.phase.Ended? && t'.tidy) ==> SameAt(before, store', Lease(t.pack.manifestId)))
  {
    var m := t.pack.manifestId;
    assert t.leased <==> !t.phase.Begun?;
    if t.phase.Begun? || t.phase.Releasing? {
      hide FlagsRight, WellFormed, PrefixEmpty;
    } else {
      LeaseUntouched(verify, store, id, t, outcome, file);
      hide Operate, FlagsRight, WellFormed, PrefixEmpty;
    }
  }

  lemma LeaseUntouched(verify: Verifier, store: Store, id: Id, t: Attempt, outcome: Outcome, file: string)
    requires FlagsRight(t) && !t.phase.Ended? && !t.phase.Begun? && !t.phase.Releasing?
    ensures var After(store', t') := Operate(verify, store, id, t, outcome, file); !t'.phase.Begun? && !t'.phase.Ended?
  {
    assert WellFormed(t.pack);
    hide FlagsRight, WellFormed, PrefixEmpty, StageNext, VerifyStaged, RollBackNext, CleanOne, Publication, MovedStore,
         Fail, ToCleaning;
  }

  lemma EndsGone(verify: Verifier, store: Store, id: Id, t: Attempt, outcome: Outcome, file: string)
    requires AttemptRight(verify, store, id, t) && !t.phase.Ended?
    ensures var After(store', t') := Operate(verify, store, id, t, outcome, file);
            t'.phase.Ended? && t'.checked && t'.tidy && !t'.committed ==>
                forall f :: Published(t.pack.manifestId, f) !in store'
  {
    hide WellFormed, PrefixEmpty, Publication, StagedFiles, MovedStore, Complete;
  }

  lemma TurnKeeps(verify: Verifier, before: Store, store: Store, id: Id, t: Attempt, outcome: Outcome, file: string)
    requires AttemptRight(verify, store, id, t) && Restorable(before, store, id, t) && !t.phase.Ended?
    ensures var After(store', t') := Operate(verify, store, id, t, outcome, file); Restorable(before, store', id, t')
  {
    FlagsOf(verify, store, id, t);
    OperateFacts(verify, store, id, t, outcome, file);
    OperateFrame(verify, store, id, t, outcome, file);
    LeaseKept(verify, before, store, id, t, outcome, file);
    EndsGone(verify, store, id, t, outcome, file);
    hide AttemptRight, Operate, FlagsRight, WellFormed;
    var After(store', t') := Operate(verify, store, id, t, outcome, file);
    if t'.checked && !t.checked {
      PrefixTransfers(before, store, t.pack.manifestId);
    }
    hide PrefixEmpty;
    forall path | !Own(id, t', path) ensures SameAt(before, store', path) {
      assert SameAt(before, store, path) && SameAt(store, store', path);
    }
    if !t'.checked {
      forall f ensures SameAt(before, store', Published(t.pack.manifestId, f)) {
        assert SameAt(before, store, Published(t.pack.manifestId, f))
               && SameAt(store, store', Published(t.pack.manifestId, f));
      }
    }
  }

  lemma PrefixTransfers(before: Store, store: Store, m: Id)
    requires PrefixEmpty(store, m) && forall file :: SameAt(before, store, Published(m, file))
    ensures PrefixEmpty(before, m)
  {
    forall path | path in before ensures !(path.Published? && path.manifestId == m) {
      assert path.Published? ==> path == Published(path.manifestId, path.file);
    }
  }

  lemma {:induction false} AloneKeeps(verify: Verifier, before: Store, store: Store, id: Id, t: Attempt,
                                      turns: seq<Turn>)
    requires AttemptRight(verify, store, id, t) && Restorable(before, store, id, t)
             && AlonePossible(verify, store, id, t, turns)
    ensures var After(store', t') := Alone(verify, store, id, t, turns);
            AttemptRight(verify, store', id, t') && Restorable(before, store', id, t')
    decreases |turns|
  {
    hide AttemptRight, Restorable, Operate, WellFormed;
    if turns != [] {
      var After(store', t') := Operate(verify, store, id, t, turns[0].outcome, turns[0].file);
      OperateKeeps(verify, store, id, t, turns[0].outcome, turns[0].file);
      TurnKeeps(verify, before, store, id, t, turns[0].outcome, turns[0].file);
      AloneKeeps(verify, before, store', id, t', turns[1..]);
    }
  }

  /**
    An attempt left alone whose deletes take effect ends with the store as it was exactly when it has
    not put the marker in place: when it is a dry run, or fails at any operation before that.
   */
  lemma UncommittedRestoresStore(verify: Verifier, before: Store, id: Id, pack: Package, dryRun: bool, turns: seq<Turn>)
    requires WellFormed(pack) && forall file :: Staged(id, file) !in before
    requires var t := Attempt(pack, dryRun, Begun, false, false, false, {}, [], false, true);
             AlonePossible(verify, before, id, t, turns)
    ensures var t := Attempt(pack, dryRun, Begun, false, false, false, {}, [], false, true);
            var end := Alone(verify, before, id, t, turns);
            && (end.attempt.phase.Ended? && end.attempt.tidy ==> (end.store == before <==> !end.attempt.committed))
            && (dryRun ==> !end.attempt.committed)
  {
    var t := Attempt(pack, dryRun, Begun, false, false, false, {}, [], false, true);
    BeginRight(verify, before, id, pack, dryRun);
    AloneKeeps(verify, before, before, id, t, turns);
    if dryRun {
      AloneCarries(verify, before, id, t, turns);
    }
    var end := Alone(verify, before, id, t, turns);
    hide Alone, AlonePossible, WellFormed;
    if end.attempt.committed {
      CommittedIsNew(verify, before, end.store, id, end.attempt);
    } else if end.attempt.phase.Ended? && end.attempt.tidy {
      EndIsBefore(verify, before, end.store, id, end.attempt);
    }
  }

  lemma CommittedIsNew(verify: Verifier, before: Store, store: Store, id: Id, t: Attempt)
    requires AttemptRight(verify, store, id, t) && Restorable(before, store, id, t) && t.committed
    ensures store != before && !t.dryRun
  {
    var marker := Published(t.pack.manifestId, MARKER);
    assert MARKER in t.pack.bodies && marker in store && marker !in before;
  }

  lemma {:induction false} AloneCarries(verify: Verifier, store: Store, id: Id, t: Attempt, turns: seq<Turn>)
    requires AttemptRight(verify, store, id, t) && AlonePossible(verify, store, id, t, turns) && t.dryRun
    ensures Alone(verify, store, id, t, turns).attempt.dryRun
    decreases |turns|
  {
    hide AttemptRight, Operate, WellFormed;
    if turns != [] {
      var After(store', t') := Operate(verify, store, id, t, turns[0].outcome, turns[0].file);
      FlagsOf(verify, store, id, t);
      OperateFacts(verify, store, id, t, turns[0].outcome, turns[0].file);
      OperateKeeps(verify, store, id, t, turns[0].outcome, turns[0].file);
      AloneCarries(verify, store', id, t', turns[1..]);
    }
  }

  lemma EndIsBefore(verify: Verifier, before: Store, store: Store, id: Id, t: Attempt)
    requires AttemptRight(verify, store, id, t) && Restorable(before, store, id, t)
    requires t.phase.Ended? && t.tidy && !t.committed && forall file :: Staged(id, file) !in before
    ensures store == before
  {
    hide WellFormed, Complete;
    forall path ensures SameAt(before, store, path) {
      if Own(id, t, path) && path.Published? {
        if t.checked {
          assert Published(path.manifestId, path.file) !in store && Published(path.manifestId, path.file) !in before;
        } else {
          assert SameAt(before, store, Published(path.manifestId, path.file));
        }
      } else if Own(id, t, path) && path.Staged? {
        assert Staged(id, path.file) !in before && Staged(id, path.file) !in store;
      }
    }
    forall path ensures path in before <==> path in store { assert SameAt(before, store, path); }
    forall path | path in before ensures store[path] == before[path] { assert SameAt(before, store, path); }
  }
}
