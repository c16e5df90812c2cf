// Where the caches stop agreeing with the repository: exactly when, and a run that gets there.
module ThingFailures {
  import opened Wrappers
  import opened ThingAccess
  import opened ThingProofs

  // ----- replacing a key

  // Two things never answer to one key.
  lemma NoOtherHolder(w: World, key: Key, id: nat, other: nat)
    requires UniqueKeys(w) && Holds(w, key, id) && Holds(w, key, other)
    ensures id == other
  {
  }

  // After a key is replaced nothing holds the old one.
  lemma OldKeyIsGone(w: World, owner: string, id: nat, key: Key)
    requires Tables(w) && Changes(w, owner, id, key)
    ensures ByKey(KeyUpdated(w, owner, id, key), w.things[id].key) == Refused(NotFound)
  {
    hide KeyUpdated, Changes, Tables;
    var w', stale := KeyUpdated(w, owner, id, key), w.things[id].key;
    KeyUpdatedRows(w, owner, id, key);
    assert Tables(w) ==> UniqueKeys(w) by { TablesAreUnique(w); }
    forall a | Holds(w', stale, a) ensures false {
      if a != id { NoOtherHolder(w, stale, id, a); }
    }
  }

  lemma TablesAreUnique(w: World)
    ensures Tables(w) ==> UniqueKeys(w)
  {
  }

  // A cached key other than the one replaced is still answered as the repository would.
  lemma OtherKeysAnswer(w: World, owner: string, id: nat, key: Key, k: Key)
    requires Inv(w) && k in w.idOf
    requires Changes(w, owner, id, key) ==> k != w.things[id].key
    ensures ByKey(KeyUpdated(w, owner, id, key), k) == Granted(w.idOf[k])
  {
    hide KeyUpdated, Changes, Tables;
    var w' := KeyUpdated(w, owner, id, key);
    KeyUpdatedIs(w, owner, id, key);
    TablesAreUnique(w);
    assert Holds(w, k, w.idOf[k]);
    if Changes(w, owner, id, key) {
      KeyUpdatedRows(w, owner, id, key);
      TablesAreUnique(w');
    }
    ByKeyIsHolder(w', k, w.idOf[k]);
  }

  // After an update of a key every identification is right exactly unless the update replaced a cached key.
  lemma KeyUpdateIdentifiesIff(w: World, owner: string, id: nat, key: Key)
    requires Inv(w)
    ensures var w' := KeyUpdated(w, owner, id, key);
            (forall k :: Identified(w', k, WORKING).1 == ByKey(w', k))
            <==> !(Changes(w, owner, id, key) && w.things[id].key in w.idOf)
  {
    hide KeyUpdated, Changes, Inv, ByKey;
    var w' := KeyUpdated(w, owner, id, key);
    SameCaches(w, owner, id, key);
    if Changes(w, owner, id, key) && w.things[id].key in w.idOf {
      InvTables(w);
      OldKeyIsGone(w, owner, id, key);
      assert Identified(w', w.things[id].key, WORKING).1.Granted?;
    } else {
      forall k ensures Identified(w', k, WORKING).1 == ByKey(w', k) {
        if k in w.idOf { OtherKeysAnswer(w, owner, id, key, k); }
      }
    }
  }

  lemma SameCaches(w: World, owner: string, id: nat, key: Key)
    ensures var w' := KeyUpdated(w, owner, id, key);
            w'.idOf == w.idOf && w'.members == w.members && w'.connections == w.connections
  {
  }

  lemma InvTables(w: World)
    requires Inv(w)
    ensures Tables(w) && forall k :: k in w.idOf ==> Holds(w, k, w.idOf[k])
  {
  }

  // Every access check is right exactly unless, besides, the thing has a cached connection.
  lemma KeyUpdateAdmitsIff(w: World, owner: string, id: nat, key: Key)
    requires Inv(w)
    ensures var w' := KeyUpdated(w, owner, id, key);
            (forall c, k :: AccessByKey(w', c, k, WORKING).1 == HasThing(w', c, k))
            <==> !(Changes(w, owner, id, key) && w.things[id].key in w.idOf && exists c :: Cached(w, c, id))
  {
    hide KeyUpdated, Changes, Inv, ByKey, Tables;
    var w' := KeyUpdated(w, owner, id, key);
    SameCaches(w, owner, id, key);
    InvTables(w);
    if Changes(w, owner, id, key) && w.things[id].key in w.idOf && exists c :: Cached(w, c, id) {
      var c, stale :| Cached(w, c, id) && stale == w.things[id].key;
      OldKeyIsGone(w, owner, id, key);
      TablesAreUnique(w);
      NoOtherHolder(w, stale, id, w.idOf[stale]);
      assert FastPath(w', c, stale) == Some(id);
      assert AccessByKey(w', c, stale, WORKING).1 != HasThing(w', c, stale);
    } else {
      forall c, k ensures AccessByKey(w', c, k, WORKING).1 == HasThing(w', c, k) {
        if FastPath(w', c, k).Some? { FastPathAfterUpdate(w, owner, id, key, c, k); }
      }
    }
  }

  lemma FastPathAfterUpdate(w: World, owner: string, id: nat, key: Key, c: nat, k: Key)
    requires Inv(w) && FastPath(KeyUpdated(w, owner, id, key), c, k).Some?
    requires !(Changes(w, owner, id, key) && w.things[id].key in w.idOf && Cached(w, c, id))
    ensures var w' := KeyUpdated(w, owner, id, key); HasThing(w', c, k) == Granted(w'.idOf[k])
  {
    hide KeyUpdated, Changes, Tables, ByKey;
    SameCaches(w, owner, id, key);
    var w', a := KeyUpdated(w, owner, id, key), w.idOf[k];
    TablesAreUnique(w);
    assert Holds(w, k, a) && Cached(w, c, a);
    assert Changes(w, owner, id, key) && k == w.things[id].key ==> Holds(w, k, id);
    OtherKeysAnswer(w, owner, id, key, k);
    assert (c, a) in w.connections;
  }

  // The invariant of the caches survives an update exactly in these cases.
  lemma KeyUpdatedKeepsInvIff(w: World, owner: string, id: nat, key: Key)
    requires Inv(w)
    ensures Inv(KeyUpdated(w, owner, id, key)) <==> !(Changes(w, owner, id, key) && w.things[id].key in w.idOf)
  {
    hide KeyUpdated, Changes, Inv;
    if Changes(w, owner, id, key) && w.things[id].key in w.idOf {
      InvTables(w);
      SameCaches(w, owner, id, key);
      OldKeyIsGone(w, owner, id, key);
      if Inv(KeyUpdated(w, owner, id, key)) { InvTables(KeyUpdated(w, owner, id, key)); }
    } else {
      KeyUpdatedKeepsInv(w, owner, id, key);
    }
  }

  // ----- half a key

  // Rows of other things stay, and so do their keys; a removed row is gone.
  lemma RemovedRows(w: World, owner: string, id: nat)
    ensures var w' := ThingRemoved(w, owner, id, true);
            && (forall k, a :: Holds(w', k, a) ==> Holds(w, k, a))
            && (forall k, a :: Holds(w, k, a) && a != id ==> Holds(w', k, a))
            && (id in w.things && w.things[id].owner == owner ==> forall k :: !Holds(w', k, id))
            && (!(id in w.things && w.things[id].owner == owner) ==> w'.things == w.things)
            && w'.idOf == if id in w.keyOf then w.idOf - {w.keyOf[id]} else w.idOf
  {
  }

  // After a thing is removed every identification is right exactly unless only half of its key was saved.
  lemma RemovalIdentifiesIff(w: World, owner: string, id: nat)
    requires Inv(w)
    ensures var w' := ThingRemoved(w, owner, id, true);
            (forall k :: Identified(w', k, WORKING).1 == ByKey(w', k)) <==> !Unforgettable(w, owner, id)
  {
    hide Inv, ByKey, Tables, ThingRemoved, Holds;
    var w' := ThingRemoved(w, owner, id, true);
    RemovedRows(w, owner, id);
    if Unforgettable(w, owner, id) {
      UnforgottenKey(w, owner, id);
    } else {
      forall k ensures Identified(w', k, WORKING).1 == ByKey(w', k) {
        if k in w'.idOf { RemainingKey(w, owner, id, k); }
      }
    }
  }

  lemma UnforgottenKey(w: World, owner: string, id: nat)
    requires Inv(w) && Unforgettable(w, owner, id)
    ensures var w', stale := ThingRemoved(w, owner, id, true), w.things[id].key;
            stale in w'.idOf && ByKey(w', stale) == Refused(NotFound)
  {
    hide Inv, ByKey, Tables, ThingRemoved;
    var w', stale := ThingRemoved(w, owner, id, true), w.things[id].key;
    InvTables(w);
    TablesAreUnique(w);
    RemovedRows(w, owner, id);
    forall a ensures !Holds(w', stale, a) {
      if Holds(w', stale, a) { NoOtherHolder(w, stale, id, a); }
    }
    NotHeld(w', stale);
  }

  lemma RemainingKey(w: World, owner: string, id: nat, k: Key)
    requires Inv(w) && !Unforgettable(w, owner, id) && k in ThingRemoved(w, owner, id, true).idOf
    ensures var w' := ThingRemoved(w, owner, id, true); ByKey(w', k) == Granted(w'.idOf[k])
  {
    hide Inv, ByKey, Tables;
    var w' := ThingRemoved(w, owner, id, true);
    InvTables(w);
    TablesAreUnique(w);
    assert Holds(w, k, w.idOf[k]);
    assert UniqueKeys(w');
    ByKeyIsHolder(w', k, w'.idOf[k]);
  }

  lemma NotHeld(w: World, key: Key)
    requires forall a :: !Holds(w, key, a)
    ensures ByKey(w, key) == Refused(NotFound)
  {
  }

  // ----- runs that end badly

  // One thing with key "k", one channel, and the thing connected to the channel.
  const CONNECTED := World(map[1 := Thing(1, "o", Chosen("k"))], map[2 := "o"], {(2, 1)}, map[], map[], map[], 3)

  lemma OneThingOneChannel(batch: seq<Thing>)
    requires batch == [Thing(0, "", Chosen("k"))]
    ensures ChannelsCreated(ThingsCreated(EMPTY, "o", batch), "o", 1) == CONNECTED.(connections := {})
  {
    var thing := Thing(1, "o", Chosen("k"));
    assert Stamp(batch, "o", 1) == ([thing], 2) by { assert batch[1..] == [] && [thing] + [] == [thing]; }
    assert Insert(map[], [thing]) == Insert(map[1 := thing], [thing][1..]) == Some(map[1 := thing]);
    assert WithChannels(map[], 2, 1, "o") == map[2 := "o"];
  }

  lemma OnePair(w: World)
    requires w == CONNECTED.(connections := {})
    ensures Connected(w, "o", [2], [1]) == CONNECTED
  {
    assert Pairs([2], [1]) == [(2, 1)] by {
      assert Row(2, [1]) == [(2, 1)] by { assert [1][1..] == []; }
      assert [2][1..] == [];
    }
    assert w.connections + {(2, 1)} == {(2, 1)};
    assert Link(w, "o", [(2, 1)]) == Link(CONNECTED, "o", [(2, 1)][1..]) == Linked({(2, 1)});
  }

  const SET_UP: seq<Op> :=
    [OpCreateThings("o", [Thing(0, "", Chosen("k"))]), OpCreateChannels("o", 1), OpConnect("o", [2], [1])]

  lemma SetUp(ops: seq<Op>)
    ensures Run(EMPTY, SET_UP + ops) == Run(CONNECTED, ops)
  {
    hide ThingsCreated, ChannelsCreated, Connected;
    var batch := [Thing(0, "", Chosen("k"))];
    var a, b, c := OpCreateThings("o", batch), OpCreateChannels("o", 1), OpConnect("o", [2], [1]);
    OneThingOneChannel(batch);
    OnePair(CONNECTED.(connections := {}));
    RunOne(EMPTY, a, [b, c] + ops);
    RunOne(Step(EMPTY, a), b, [c] + ops);
    RunOne(Step(Step(EMPTY, a), b), c, ops);
    assert [a, b, c] + ops == [a] + ([b, c] + ops);
    assert [b, c] + ops == [b] + ([c] + ops);
  }

  lemma RunOne(w: World, op: Op, ops: seq<Op>)
    ensures Run(w, [op] + ops) == Run(Step(w, op), ops)
  {
    hide Step;
    assert ([op] + ops)[1..] == ops;
  }

  lemma RunTwo(w: World, a: Op, b: Op)
    ensures Run(w, [a, b]) == Step(Step(w, a), b) && Run(w, [a]) == Step(w, a)
  {
    hide Step;
    assert [a, b][1..] == [b] && [b][1..] == [] && [a][1..] == [];
    assert Run(Step(w, a), [b]) == Step(Step(w, a), b);
  }

  lemma HolderOfK(w: World)
    requires w.things == CONNECTED.things
    ensures ByKey(w, Chosen("k")) == Granted(1)
  {
    assert Holds(w, Chosen("k"), 1);
  }

  // A removed thing can still be let in by ID: its connection was cached before it was removed.
  lemma RemovedThingAnsweredByID()
    ensures var ops := SET_UP + [OpAccessByID(2, 1, WORKING), OpRemoveThing("o", 1, true)];
            var w := Run(EMPTY, ops);
            AccessByID(w, 2, 1, WORKING).1 == Granted(1) && !HasThingByID(w, 2, 1)
  {
    var a, b := OpAccessByID(2, 1, WORKING), OpRemoveThing("o", 1, true);
    SetUp([a, b]);
    RunTwo(CONNECTED, a, b);
    var w := Step(Step(CONNECTED, a), b);
    assert Cached(w, 2, 1) && (2, 1) !in w.connections;
  }

  // A key that was replaced still lets its thing in: it was cached before.
  lemma ReplacedKeyLetsIn()
    ensures var ops := SET_UP + [OpAccessByKey(2, Chosen("k"), WORKING), OpUpdateKey("o", 1, Chosen("n"))];
            var w := Run(EMPTY, ops);
            && AccessByKey(w, 2, Chosen("k"), WORKING).1 == Granted(1)
            && HasThing(w, 2, Chosen("k")) == Refused(KeyUnknown)
  {
    var a, b := OpAccessByKey(2, Chosen("k"), WORKING), OpUpdateKey("o", 1, Chosen("n"));
    SetUp([a, b]);
    RunTwo(CONNECTED, a, b);
    hide Run, Step, AccessByKey, HasThing;
    var w := Step(CONNECTED, a);
    KeyIsCached(w);
    KeyIsReplaced(w);
  }

  lemma KeyIsCached(w: World)
    requires w == Step(CONNECTED, OpAccessByKey(2, Chosen("k"), WORKING))
    ensures FastPath(w, 2, Chosen("k")) == Some(1) && w.things == CONNECTED.things && Tables(w)
  {
    hide ByKey;
    HolderOfK(CONNECTED);
  }

  lemma KeyIsReplaced(w: World)
    requires FastPath(w, 2, Chosen("k")) == Some(1) && w.things == CONNECTED.things && Tables(w)
    ensures var w' := Step(w, OpUpdateKey("o", 1, Chosen("n")));
            && AccessByKey(w', 2, Chosen("k"), WORKING).1 == Granted(1)
            && HasThing(w', 2, Chosen("k")) == Refused(KeyUnknown)
  {
    hide ByKey, KeyUpdated;
    SameCaches(w, "o", 1, Chosen("n"));
    OldKeyIsGone(w, "o", 1, Chosen("n"));
  }

  // A key of which only the first half was saved identifies its thing after the thing was removed.
  lemma RemovedThingIdentified()
    ensures var ops := SET_UP + [OpIdentify(Chosen("k"), Caching(true, HalfSaved, true)), OpRemoveThing("o", 1, true)];
            var w := Run(EMPTY, ops);
            && Identified(w, Chosen("k"), WORKING).1 == Granted(1)
            && ByKey(w, Chosen("k")) == Refused(NotFound)
  {
    var a, b := OpIdentify(Chosen("k"), Caching(true, HalfSaved, true)), OpRemoveThing("o", 1, true);
    SetUp([a, b]);
    RunTwo(CONNECTED, a, b);
    HolderOfK(CONNECTED);
    hide ByKey;
    NotHeld(Step(Step(CONNECTED, a), b), Chosen("k"));
  }
}
