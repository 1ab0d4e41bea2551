/**
  The registry of live realtime connections: four indexes over the same connections, which every
  registration, removal and close must keep in agreement.
 */
module Registry {
  import opened Wrappers

  datatype Message = CursorAvailable(sequence: nat, restoreEpoch: nat) | ConnectionRevoked(reason: string)

  /** Who a connection belongs to; the key generation is the empty text when there is none. */
  datatype Context = Context(accountId: string, spaceId: string, clientId: string, keyGenerationId: string)

  /** A registered connection and what its sink has received. */
  class Connection {
    const context: Context
    var inbox: seq<Message>
    var closed: bool

    constructor (context: Context)
      ensures this.context == context && inbox == [] && !closed
    {
      this.context := context;
      inbox, closed := [], false;
    }
  }

  type Index = map<string, set<Connection>>

  datatype Field = BySpace | BySpaceId | ByClient | ByGeneration

  function SpaceKey(accountId: string, spaceId: string): string {
    accountId + ":" + spaceId
  }

  function OwnSpaceKey(c: Connection): string {
    SpaceKey(c.context.accountId, c.context.spaceId)
  }

  /** The key under which an index holds a connection, if it holds it at all. */
  function KeyOf(c: Connection, field: Field): Option<string> {
    match field
    case BySpace => Some(OwnSpaceKey(c))
    case BySpaceId => Some(c.context.spaceId)
    case ByClient => Some(c.context.clientId)
    case ByGeneration => if c.context.keyGenerationId == "" then None else Some(c.context.keyGenerationId)
  }

  function Added(index: Index, key: Option<string>, c: Connection): Index {
    if key.None? then index
    else index[key.value := (if key.value in index then index[key.value] else {}) + {c}]
  }

  function Removed(index: Index, key: Option<string>, c: Connection): Index {
    if key.None? || key.value !in index then index
    else if index[key.value] - {c} == {} then index - {key.value}
    else index[key.value := index[key.value] - {c}]
  }

  /** The connections an index holds under a key. */
  function Bucket(index: Index, key: string): set<Connection> {
    if key in index then index[key] else {}
  }

  /** The live connections that have the given key. */
  function Having(live: set<Connection>, field: Field, key: string): set<Connection> {
    set c | c in live && KeyOf(c, field) == Some(key)
  }

  /** An index agrees with the live connections: each under its own key, and no empty buckets. */
  ghost predicate Agrees(index: Index, live: set<Connection>, field: Field) {
    && (forall key :: key in index ==> index[key] != {})
    && (forall key :: Bucket(index, key) == Having(live, field, key))
  }

  lemma AddKeepsAgreement(index: Index, live: set<Connection>, field: Field, c: Connection)
    requires Agrees(index, live, field)
    ensures Agrees(Added(index, KeyOf(c, field), c), live + {c}, field)
  {
    var index' := Added(index, KeyOf(c, field), c);
    forall key ensures Bucket(index', key) == Having(live + {c}, field, key) {
      assert Bucket(index, key) == Having(live, field, key);
    }
  }

  lemma RemoveKeepsAgreement(index: Index, live: set<Connection>, field: Field, c: Connection)
    requires Agrees(index, live, field)
    ensures Agrees(Removed(index, KeyOf(c, field), c), live - {c}, field)
  {
    var index' := Removed(index, KeyOf(c, field), c);
    forall key ensures Bucket(index', key) == Having(live - {c}, field, key) {
      assert Bucket(index, key) == Having(live, field, key);
    }
  }

  predicate StartsWith(key: string, prefix: string) {
    prefix <= key
  }

  /** The live connections whose space key starts with the account identifier and a colon. */
  function OfAccount(live: set<Connection>, accountId: string): set<Connection> {
    set c | c in live && StartsWith(OwnSpaceKey(c), accountId + ":")
  }

  lemma BucketOfAccount(index: Index, live: set<Connection>, before: set<Connection>, accountId: string, key: string)
    requires Agrees(index, live, BySpace) && live <= before
    ensures key in index ==> index[key] == Having(live, BySpace, key) && index[key] <= live
    ensures key !in index ==> Having(live, BySpace, key) == {}
    ensures OfAccount(before, accountId) <= before
    ensures StartsWith(key, accountId + ":") ==> Having(live, BySpace, key) <= OfAccount(before, accountId)
    ensures forall c :: c in live && c in OfAccount(before, accountId) && OwnSpaceKey(c) == key ==>
                          StartsWith(key, accountId + ":") && c in Having(live, BySpace, key)
  {
    assert Bucket(index, key) == Having(live, BySpace, key);
  }

  lemma TargetsOfAccount(live: set<Connection>, accountId: string)
    ensures OfAccount(live, accountId) ==
            set c | c in live && accountId + ":" <= c.context.accountId + ":" + c.context.spaceId
  {
  }

  class InvalidationRegistry {
    var bySpace: Index
    var bySpaceId: Index
    var byClient: Index
    var byGeneration: Index
    ghost var live: set<Connection>

    ghost predicate Valid()
      reads this
    {
      && Agrees(bySpace, live, BySpace) && Agrees(bySpaceId, live, BySpaceId)
      && Agrees(byClient, live, ByClient) && Agrees(byGeneration, live, ByGeneration)
    }

    constructor ()
      ensures Valid() && live == {}
    {
      bySpace, bySpaceId, byClient, byGeneration := map[], map[], map[], map[];
      live := {};
    }

    method Register(context: Context) returns (connection: Option<Connection>)
      requires Valid()
      modifies this
      ensures Valid()
      ensures connection.Some? <==> context.accountId != "" && context.spaceId != "" && context.clientId != ""
      ensures connection.None? ==> live == old(live)
      ensures connection.Some? ==>
                var c := connection.value;
                fresh(c) && c.context == context && c.inbox == [] && !c.closed && live == old(live) + {c}
    {
      if context.accountId == "" || context.spaceId == "" || context.clientId == "" {
        return None;
      }
      var c := new Connection(context);
      AddKeepsAgreement(bySpace, live, BySpace, c);
      AddKeepsAgreement(bySpaceId, live, BySpaceId, c);
      AddKeepsAgreement(byClient, live, ByClient, c);
      AddKeepsAgreement(byGeneration, live, ByGeneration, c);
      hide Agrees;
      bySpace := Added(bySpace, KeyOf(c, BySpace), c);
      bySpaceId := Added(bySpaceId, KeyOf(c, BySpaceId), c);
      byClient := Added(byClient, KeyOf(c, ByClient), c);
      byGeneration := Added(byGeneration, KeyOf(c, ByGeneration), c);
      live := live + {c};
      connection := Some(c);
    }

    /** Also what a registration hands out to unregister; removing again changes nothing. */
    method Remove(c: Connection)
      requires Valid()
      modifies this
      ensures Valid() && live == old(live) - {c}
    {
      RemoveKeepsAgreement(bySpace, live, BySpace, c);
      RemoveKeepsAgreement(bySpaceId, live, BySpaceId, c);
      RemoveKeepsAgreement(byClient, live, ByClient, c);
      RemoveKeepsAgreement(byGeneration, live, ByGeneration, c);
      hide Agrees;
      bySpace := Removed(bySpace, KeyOf(c, BySpace), c);
      bySpaceId := Removed(bySpaceId, KeyOf(c, BySpaceId), c);
      byClient := Removed(byClient, KeyOf(c, ByClient), c);
      byGeneration := Removed(byGeneration, KeyOf(c, ByGeneration), c);
      live := live - {c};
    }

    /** Exactly the live connections of that space get the message, once each. */
    method Publish(accountId: string, spaceId: string, sequence: nat, restoreEpoch: nat)
      requires Valid()
      modifies set c | c in live && c.context.accountId + ":" + c.context.spaceId == accountId + ":" + spaceId
      ensures forall c :: c in live ==>
                && c.closed == old(c.closed)
                && c.inbox ==
                   if c.context.accountId + ":" + c.context.spaceId == accountId + ":" + spaceId
                   then old(c.inbox) + [CursorAvailable(sequence, restoreEpoch)] else old(c.inbox)
    {
      var message := CursorAvailable(sequence, restoreEpoch);
      var all := Bucket(bySpace, SpaceKey(accountId, spaceId));
      assert all == Having(live, BySpace, SpaceKey(accountId, spaceId));
      var rest := all;
      while rest != {}
        invariant rest <= all
        invariant forall c :: c in all - rest ==> c.inbox == old(c.inbox) + [message] && c.closed == old(c.closed)
        invariant forall c :: c in rest ==> c.inbox == old(c.inbox) && c.closed == old(c.closed)
        decreases |rest|
      {
        var c :| c in rest;
        c.inbox := c.inbox + [message];
        rest := rest - {c};
      }
    }

    /** Tells, closes and removes each connection of a copy of the set, and counts them. */
    method CloseSet(connections: set<Connection>, reason: string) returns (count: nat)
      requires Valid()
      modifies this, connections
      ensures Valid() && live == old(live) - connections && count == |connections|
      ensures forall c :: c in connections ==> c.closed && c.inbox == old(c.inbox) + [ConnectionRevoked(reason)]
    {
      count := 0;
      var rest := connections;
      while rest != {}
        invariant Valid() && rest <= connections && live == old(live) - (connections - rest)
        invariant count + |rest| == |connections|
        invariant forall c :: c in connections - rest ==>
                    c.closed && c.inbox == old(c.inbox) + [ConnectionRevoked(reason)]
        invariant forall c :: c in rest ==> c.inbox == old(c.inbox)
        decreases |rest|
      {
        hide Valid;
        var c :| c in rest;
        c.inbox := c.inbox + [ConnectionRevoked(reason)];
        c.closed := true;
        Remove(c);
        rest := rest - {c};
        count := count + 1;
      }
    }

    method CloseClient(clientId: string) returns (count: nat)
      requires Valid()
      modifies this, set c | c in live && c.context.clientId == clientId
      ensures Valid()
      ensures var targets := set c | c in old(live) && c.context.clientId == clientId;
              && live == old(live) - targets && count == |targets|
              && forall c :: c in targets ==>
                   c.closed && c.inbox == old(c.inbox) + [ConnectionRevoked("client_revoked")]
    {
      assert Bucket(byClient, clientId) == Having(live, ByClient, clientId);
      assert Having(live, ByClient, clientId) == set c | c in live && c.context.clientId == clientId;
      count := CloseSet(Bucket(byClient, clientId), "client_revoked");
    }

    /** A connection without a key generation belongs to none, not to the empty text. */
    method CloseGeneration(generationId: string) returns (count: nat)
      requires Valid()
      modifies this, set c | c in live && generationId != "" && c.context.keyGenerationId == generationId
      ensures Valid()
      ensures var targets := set c | c in old(live) && generationId != "" && c.context.keyGenerationId == generationId;
              && live == old(live) - targets && count == |targets|
              && forall c :: c in targets ==>
                   c.closed && c.inbox == old(c.inbox) + [ConnectionRevoked("client_revoked")]
    {
      assert Bucket(byGeneration, generationId) == Having(live, ByGeneration, generationId);
      assert Having(live, ByGeneration, generationId) == set c | c in live && generationId != ""
             && c.context.keyGenerationId == generationId;
      count := CloseSet(Bucket(byGeneration, generationId), "client_revoked");
    }

    method CloseSpace(spaceId: string) returns (count: nat)
      requires Valid()
      modifies this, set c | c in live && c.context.spaceId == spaceId
      ensures Valid()
      ensures var targets := set c | c in old(live) && c.context.spaceId == spaceId;
              && live == old(live) - targets && count == |targets|
              && forall c :: c in targets ==>
                   c.closed && c.inbox == old(c.inbox) + [ConnectionRevoked("space_inactive")]
    {
      assert Bucket(bySpaceId, spaceId) == Having(live, BySpaceId, spaceId);
      assert Having(live, BySpaceId, spaceId) == set c | c in live && c.context.spaceId == spaceId;
      count := CloseSet(Bucket(bySpaceId, spaceId), "space_inactive");
    }

    /** One round of closing an account: the bucket of one key, if it is the account's and still there. */
    method CloseBucket(accountId: string, key: string, ghost before: set<Connection>)
        returns (count: nat, ghost bucket: set<Connection>)
      requires Valid() && live <= before
      modifies this, live
      ensures Valid() && bucket <= old(live) && live == old(live) - bucket && count == |bucket|
      ensures bucket <= OfAccount(before, accountId)
      ensures forall c :: c in OfAccount(before, accountId) && OwnSpaceKey(c) == key ==> c !in live
      ensures forall c :: c in bucket ==> c.closed && c.inbox == old(c.inbox) + [ConnectionRevoked("account_disabled")]
      ensures forall c :: c in live ==> c.inbox == old(c.inbox) && c.closed == old(c.closed)
    {
      BucketOfAccount(bySpace, live, before, accountId, key);
      hide Agrees, Bucket, OwnSpaceKey, StartsWith, OfAccount, KeyOf, Having;
      count, bucket := 0, {};
      if key in bySpace && StartsWith(key, accountId + ":") {
        bucket := bySpace[key];
        count := CloseSet(bySpace[key], "account_disabled");
      }
    }

    /** The connections whose space key starts with the identifier of the account and a colon. */
    method CloseAccount(accountId: string) returns (count: nat)
      requires Valid()
      modifies this, live
      ensures Valid()
      ensures var targets :=
                set c | c in old(live) && accountId + ":" <= c.context.accountId + ":" + c.context.spaceId;
              && live == old(live) - targets && count == |targets|
              && forall c :: c in targets ==>
                   c.closed && c.inbox == old(c.inbox) + [ConnectionRevoked("account_disabled")]
      ensures forall c :: c in live ==> c.inbox == old(c.inbox) && c.closed == old(c.closed)
    {
      TargetsOfAccount(live, accountId);
      hide OfAccount;
      count := CloseBuckets(accountId);
    }

    /** Goes through the space index, whose buckets vanish as their connections are closed. */
    method CloseBuckets(accountId: string) returns (count: nat)
      requires Valid()
      modifies this, live
      ensures Valid() && live == old(live) - OfAccount(old(live), accountId)
              && count == |OfAccount(old(live), accountId)|
      ensures forall c :: c in OfAccount(old(live), accountId) ==>
                c.closed && c.inbox == old(c.inbox) + [ConnectionRevoked("account_disabled")]
      ensures forall c :: c in live ==> c.inbox == old(c.inbox) && c.closed == old(c.closed)
    {
      count := 0;
      var keys := bySpace.Keys;
      ghost var targets: set<Connection>, visited: set<Connection> := OfAccount(live, accountId), {};
      assert targets <= live;
      hide Agrees, OwnSpaceKey, StartsWith, OfAccount;
      forall c | c in targets ensures OwnSpaceKey(c) in keys {
        BucketOfAccount(bySpace, live, old(live), accountId, OwnSpaceKey(c));
      }
      while keys != {}
        invariant Valid() && visited <= targets && live == old(live) - visited && count == |visited|
        invariant forall c :: c in targets && c !in visited ==> OwnSpaceKey(c) in keys
        invariant forall c :: c in visited ==>
                    c.closed && c.inbox == old(c.inbox) + [ConnectionRevoked("account_disabled")]
        invariant forall c :: c in old(live) - visited ==> c.inbox == old(c.inbox) && c.closed == old(c.closed)
        decreases |keys|
      {
        var key :| key in keys;
        keys := keys - {key};
        var n, bucket := CloseBucket(accountId, key, old(live));
        visited, count := visited + bucket, count + n;
      }
      assert visited == targets;
    }
  }

  // ---------------------------------------------------------------- joined keys

  /**
    Which connections closing an account reaches: its own, those of accounts whose identifier goes on
    after it and a colon, and those whose space identifier completes the account that is closed.
   */
  lemma AccountReach(accountId: string, context: Context)
    ensures StartsWith(SpaceKey(context.accountId, context.spaceId), accountId + ":") <==>
            || context.accountId == accountId
            || (exists rest :: context.accountId == SpaceKey(accountId, rest))
            || (exists rest ::
                accountId == SpaceKey(context.accountId, rest) && StartsWith(context.spaceId, rest + ":"))
  {
    var key, a, b := SpaceKey(context.accountId, context.spaceId), accountId, context.accountId;
    if a + ":" <= key && |a| > |b| {
      var rest := a[|b| + 1..];
      assert a == key[..|a|] && a[|b|] == key[|b|] && a == b + ":" + rest;
      assert context.spaceId == key[|b| + 1..];
      assert rest + ":" == (a + ":")[|b| + 1..];
      assert a == SpaceKey(b, rest) && StartsWith(context.spaceId, rest + ":");
    } else if a + ":" <= key {
      assert key[..|b|] == b;
      if |a| < |b| {
        assert b[|a|] == key[|a|] == ':' && b[..|a|] == a;
        assert b == SpaceKey(a, b[|a| + 1..]);
      }
    }
    forall rest | accountId == SpaceKey(context.accountId, rest) && StartsWith(context.spaceId, rest + ":")
      ensures a + ":" <= key
    {
      assert key == b + ":" + context.spaceId && a + ":" == b + ":" + (rest + ":");
    }
    forall rest | b == SpaceKey(a, rest) ensures a + ":" <= key {
      assert key == a + ":" + (rest + ":" + context.spaceId);
    }
  }

  lemma ColonInside(a: string, rest: string)
    ensures ':' in a + ":" + rest
  {
    assert (a + ":" + rest)[|a|] == ':';
  }

  /** With identifiers that hold no colon, closing an account closes exactly its own connections. */
  lemma AccountReachesItsOwn(live: set<Connection>, accountId: string)
    requires ':' !in accountId && forall c :: c in live ==> ':' !in c.context.accountId
    ensures OfAccount(live, accountId) == set c | c in live && c.context.accountId == accountId
  {
    forall c | c in live
      ensures c in OfAccount(live, accountId) <==> c.context.accountId == accountId
    {
      AccountReachesOnlyItself(accountId, c.context);
    }
  }

  lemma AccountReachesOnlyItself(accountId: string, context: Context)
    requires ':' !in accountId && ':' !in context.accountId
    ensures StartsWith(SpaceKey(context.accountId, context.spaceId), accountId + ":") <==>
              context.accountId == accountId
  {
    AccountReach(accountId, context);
    forall rest
      ensures accountId != SpaceKey(context.accountId, rest) && context.accountId != SpaceKey(accountId, rest) {
      ColonInside(context.accountId, rest);
      ColonInside(accountId, rest);
    }
  }

  /** With a colon inside an identifier it also closes another account's connections. */
  lemma AccountReachesAnother()
    ensures StartsWith(SpaceKey("a:b", "s"), "a" + ":") && "a:b" != "a"
  {
    AccountReach("a", Context("a:b", "s", "c", ""));
  }

  /** Messages go to the space they are meant for when account identifiers hold no colon. */
  lemma SpaceKeysAreDistinct(a: string, s: string, b: string, t: string)
    requires ':' !in a && ':' !in b
    ensures SpaceKey(a, s) == SpaceKey(b, t) <==> a == b && s == t
  {
    if SpaceKey(a, s) == SpaceKey(b, t) {
      AccountReachesOnlyItself(a, Context(b, t, "", ""));
      assert s == SpaceKey(a, s)[|a| + 1..] && t == SpaceKey(b, t)[|b| + 1..];
    }
  }
}
