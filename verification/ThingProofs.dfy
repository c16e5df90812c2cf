// The caches refine the repository over every run.
module ThingProofs {
  import opened Wrappers
  import opened ThingAccess

  // Connections reference existing rows, and nothing anywhere mentions an identifier not yet issued.
  ghost predicate Tables(w: World) {
    && UniqueKeys(w)
    && (forall p :: p in w.connections ==> p.0 in w.channels && p.1 in w.things)
    && (forall id :: id in w.things ==> id < w.next)
    && (forall c :: c in w.channels ==> c < w.next)
    && (forall c, t :: c in w.members && t in w.members[c] ==> c < w.next && t < w.next)
  }

  // A cached key is the current key of an existing thing.
  ghost predicate KeysCached(w: World) {
    forall k :: k in w.idOf ==> Holds(w, k, w.idOf[k])
  }

  // A cached connection of a thing that exists is a connection; entries of removed things may remain.
  ghost predicate ConnectionsCached(w: World) {
    forall c: nat, t: nat :: Cached(w, c, t) && t in w.things ==> (c, t) in w.connections
  }

  ghost predicate Inv(w: World) {
    Tables(w) && KeysCached(w) && ConnectionsCached(w)
  }

  // ----- answers

  lemma ByKeyIsHolder(w: World, key: Key, id: nat)
    requires UniqueKeys(w) && Holds(w, key, id)
    ensures ByKey(w, key) == Granted(id)
  {
  }

  // An answer is the repository's or, when it grants and a cache could not be written, a failure.
  predicate Agrees(answer: Answer, truth: Answer, written: bool) {
    answer == truth || (truth.Granted? && !written && answer == Refused(CacheFailed))
  }

  // The fast path never contradicts the repository, so the answer is the repository's, failures included.
  lemma AccessByKeyIsHasThing(w: World, chan: nat, key: Key, cache: Caching)
    requires Inv(w)
    ensures Agrees(AccessByKey(w, chan, key, cache).1, HasThing(w, chan, key), cache.saves.Saved? && cache.links)
  {
    if FastPath(w, chan, key).Some? {
      ByKeyIsHolder(w, key, w.idOf[key]);
    }
  }

  lemma IdentifyIsByKey(w: World, key: Key, cache: Caching)
    requires Inv(w)
    ensures Agrees(Identified(w, key, cache).1, ByKey(w, key), cache.saves.Saved?)
  {
    if key in w.idOf {
      ByKeyIsHolder(w, key, w.idOf[key]);
    }
  }

  // A granted check is answered by the fast path from then on.
  lemma GrantedIsCached(w: World, chan: nat, key: Key, cache: Caching)
    requires AccessByKey(w, chan, key, cache).1.Granted?
    ensures var (w', r) := AccessByKey(w, chan, key, cache); FastPath(w', chan, key) == Some(r.id)
  {
  }

  // Asked by ID, the cache is believed without looking at the key: the answer is the repository's exactly
  // unless the channel cache still holds a thing that was removed.
  lemma AccessByIDIsHasThingIff(w: World, chan: nat, id: nat)
    requires Inv(w)
    ensures (AccessByID(w, chan, id, WORKING).1.Granted? <==> HasThingByID(w, chan, id))
       <==> !(Cached(w, chan, id) && id !in w.things)
  {
  }

  // ----- what every operation keeps

  // Every thing gets a new identifier of its own and the owner; a chosen key is kept, a missing one issued.
  lemma {:induction false} StampIsFresh(batch: seq<Thing>, owner: string, next: nat)
    ensures var (stamped, n) := Stamp(batch, owner, next);
            && n >= next && |stamped| == |batch|
            && (forall i :: 0 <= i < |stamped| ==> next <= stamped[i].id < n && stamped[i].owner == owner)
            && (forall i, j :: 0 <= i < j < |stamped| ==> stamped[i].id < stamped[j].id)
            && forall i :: 0 <= i < |stamped| ==>
                 if batch[i].key != Chosen("") then stamped[i].key == batch[i].key
                 else stamped[i].key == Issued(stamped[i].id + 1) && stamped[i].id + 1 < n
    decreases |batch|
  {
    if batch != [] {
      StampIsFresh(batch[1..], owner, next + (if batch[0].key == Chosen("") then 2 else 1));
    }
  }

  lemma StampNone(owner: string, next: nat)
    ensures Stamp([], owner, next) == ([], next)
  {
  }

  // Stamping stopped at the thing numbered k: those in front are stamped, it is half stamped, those behind it are
  // as they were.
  predicate StoppedAt(s: Stamped, k: nat, batch: seq<Thing>, owner: string, next: nat) {
    && !s.ok && |s.batch| == |batch| && k < |batch|
    && s.batch[..k] == Stamp(batch[..k], owner, next).0 && s.batch[k + 1..] == batch[k + 1..]
    && (s.batch[k] == batch[k].(id := NO_ID)
        || (batch[k].key == Chosen("") && s.next > 0 && s.batch[k] == Thing(s.next - 1, owner, Chosen(""))))
  }

  lemma StoppedBehind(s: Stamped, rest: Stamped, k: nat, batch: seq<Thing>, owner: string, next: nat)
    requires batch != []
    requires var keyless := batch[0].key == Chosen("");
             var first := Thing(next, owner, if keyless then Issued(next + 1) else batch[0].key);
             && s == Behind([first], rest)
             && StoppedAt(rest, k, batch[1..], owner, next + (if keyless then 2 else 1))
    ensures StoppedAt(s, k + 1, batch, owner, next)
  {
    hide Stamp;
    StampFirst(batch[..k + 1], owner, next);
    assert batch[..k + 1][1..] == batch[1..][..k];
    assert s.batch[..k + 1] == [s.batch[0]] + rest.batch[..k];
    assert s.batch[k + 2..] == rest.batch[k + 1..] && batch[k + 2..] == batch[1..][k + 1..];
    assert s.batch[k + 1] == rest.batch[k] && batch[k + 1] == batch[1..][k];
  }

  lemma StoppedHere(s: Stamped, batch: seq<Thing>, owner: string, next: nat, half: Thing)
    requires batch != [] && !s.ok && s.batch == [half] + batch[1..]
    requires half == batch[0].(id := NO_ID)
             || (batch[0].key == Chosen("") && s.next == next + 1 && half == Thing(next, owner, Chosen("")))
    ensures StoppedAt(s, 0, batch, owner, next)
  {
    assert s.batch[1..] == batch[1..] && s.batch[..0] == [] && batch[..0] == [];
  }

  // A provider that does not suffice stops the stamping at some thing.
  lemma {:induction false} StampingStops(batch: seq<Thing>, owner: string, next: nat, calls: nat) returns (k: nat)
    requires calls < Needed(batch)
    ensures StoppedAt(Stamping(batch, owner, next, calls), k, batch, owner, next)
    decreases |batch|
  {
    hide StoppedAt;
    var keyless, s := batch[0].key == Chosen(""), Stamping(batch, owner, next, calls);
    var taken := if keyless then 2 else 1;
    if calls < taken {
      k := 0;
      StoppedHere(s, batch, owner, next, if calls == 0 then batch[0].(id := NO_ID) else Thing(next, owner, Chosen("")));
    } else {
      var rest := Stamping(batch[1..], owner, next + taken, calls - taken);
      var k' := StampingStops(batch[1..], owner, next + taken, calls - taken);
      StoppedBehind(s, rest, k', batch, owner, next);
      k := k' + 1;
    }
  }

  // The rows that keep identifiers and keys unique: nothing repeated within the batch or taken before.
  ghost predicate Insertable(things: map<nat, Thing>, batch: seq<Thing>) {
    && (forall i :: 0 <= i < |batch| ==> batch[i].id !in things && !KeyTaken(things, batch[i].key))
    && forall i, j :: 0 <= i < j < |batch| ==> batch[i].id != batch[j].id && batch[i].key != batch[j].key
  }

  // The transaction goes through exactly for such batches, and then adds exactly their rows.
  lemma {:induction false} InsertIff(things: map<nat, Thing>, batch: seq<Thing>)
    ensures Insert(things, batch).Some? <==> Insertable(things, batch)
    ensures Insert(things, batch).Some? ==>
              var after := Insert(things, batch).value;
              && (forall id :: id in things ==> id in after && after[id] == things[id])
              && (forall i :: 0 <= i < |batch| ==> batch[i].id in after && after[batch[i].id] == batch[i])
              && forall id :: id in after ==> id in things || exists i :: 0 <= i < |batch| && batch[i].id == id
    decreases |batch|
  {
    if batch != [] && batch[0].id !in things && !KeyTaken(things, batch[0].key) {
      var things' := things[batch[0].id := batch[0]];
      InsertIff(things', batch[1..]);
      FirstRow(things, batch);
      if Insert(things, batch).Some? {
        var after := Insert(things, batch).value;
        assert batch[0].id in things';
        forall i | 0 <= i < |batch| ensures batch[i].id in after && after[batch[i].id] == batch[i] {
          if i > 0 { assert batch[i] == batch[1..][i - 1]; }
        }
        forall id | id in after && id !in things ensures exists i :: 0 <= i < |batch| && batch[i].id == id {
          if id in things' {
            assert batch[0].id == id;
          } else {
            var i :| 0 <= i < |batch[1..]| && batch[1..][i].id == id;
            assert batch[i + 1].id == id;
          }
        }
      }
    }
  }

  lemma FirstRow(things: map<nat, Thing>, batch: seq<Thing>)
    requires batch != [] && batch[0].id !in things && !KeyTaken(things, batch[0].key)
    ensures Insertable(things, batch) <==> Insertable(things[batch[0].id := batch[0]], batch[1..])
  {
    var things' := things[batch[0].id := batch[0]];
    forall key ensures KeyTaken(things', key) <==> KeyTaken(things, key) || key == batch[0].key {
      assert things'[batch[0].id].key == batch[0].key;
      assert forall id :: id in things ==> things'[id] == things[id];
    }
    if Insertable(things', batch[1..]) {
      forall i | 0 < i < |batch|
        ensures batch[i].id !in things && !KeyTaken(things, batch[i].key)
        ensures batch[i].id != batch[0].id && batch[i].key != batch[0].key
      {
        assert batch[i] == batch[1..][i - 1];
      }
      forall i, j | 0 <= i < j < |batch| ensures batch[i].id != batch[j].id && batch[i].key != batch[j].key {
        if i > 0 { assert batch[i] == batch[1..][i - 1] && batch[j] == batch[1..][j - 1]; }
      }
    }
  }

  lemma {:induction false} InsertKeepsKeysUnique(things: map<nat, Thing>, batch: seq<Thing>)
    requires Insert(things, batch).Some?
    requires forall a, b :: a in things && b in things && things[a].key == things[b].key ==> a == b
    ensures var after := Insert(things, batch).value;
            forall a, b :: a in after && b in after && after[a].key == after[b].key ==> a == b
    decreases |batch|
  {
    if batch != [] { InsertKeepsKeysUnique(things[batch[0].id := batch[0]], batch[1..]); }
  }

  lemma ThingsCreatedKeepsInv(w: World, owner: string, batch: seq<Thing>)
    requires Inv(w)
    ensures Inv(ThingsCreated(w, owner, batch))
  {
    var (stamped, next) := Stamp(batch, owner, w.next);
    StampIsFresh(batch, owner, w.next);
    if Insert(w.things, stamped).Some? {
      InsertIff(w.things, stamped);
      InsertKeepsKeysUnique(w.things, stamped);
      var w' := ThingsCreated(w, owner, batch);
      forall c: nat, t: nat | Cached(w', c, t) && t in w'.things ensures (c, t) in w'.connections {
        assert Cached(w, c, t);
      }
    }
  }

  lemma ChannelsCreatedKeepsInv(w: World, owner: string, n: nat)
    requires Inv(w)
    ensures Inv(ChannelsCreated(w, owner, n))
  {
    hide WithChannels;
    var w' := ChannelsCreated(w, owner, n);
    forall k | k in w'.idOf ensures Holds(w', k, w'.idOf[k]) {
      assert Holds(w, k, w.idOf[k]);
    }
    forall c: nat, t: nat | Cached(w', c, t) && t in w'.things ensures (c, t) in w'.connections {
      assert Cached(w, c, t);
    }
  }

  predicate OwnedPair(w: World, owner: string, p: (nat, nat)) {
    p.0 in w.channels && w.channels[p.0] == owner && p.1 in w.things && w.things[p.1].owner == owner
  }

  // Pairs that can be connected: both ends owned, not yet connected, none twice.
  predicate Linkable(w: World, owner: string, pairs: seq<(nat, nat)>) {
    && (forall i :: 0 <= i < |pairs| ==> OwnedPair(w, owner, pairs[i]) && pairs[i] !in w.connections)
    && forall i, j :: 0 <= i < j < |pairs| ==> pairs[i] != pairs[j]
  }

  // `Connect` goes through exactly for such pairs, and then adds exactly them.
  lemma {:induction false} LinkIff(w: World, owner: string, pairs: seq<(nat, nat)>)
    ensures Link(w, owner, pairs).Linked? <==> Linkable(w, owner, pairs)
    ensures Link(w, owner, pairs).Linked? ==>
              forall p :: p in Link(w, owner, pairs).connections <==> p in w.connections || p in pairs
    decreases |pairs|
  {
    if pairs != [] {
      var (c, t) := pairs[0];
      var w' := w.(connections := w.connections + {(c, t)});
      LinkIff(w', owner, pairs[1..]);
      if OwnedPair(w, owner, (c, t)) && (c, t) !in w.connections {
        FirstPair(w, w', owner, pairs);
      }
    }
  }

  lemma FirstPair(w: World, w': World, owner: string, pairs: seq<(nat, nat)>)
    requires pairs != [] && w' == w.(connections := w.connections + {pairs[0]})
    requires OwnedPair(w, owner, pairs[0]) && pairs[0] !in w.connections
    ensures Linkable(w, owner, pairs) <==> Linkable(w', owner, pairs[1..])
  {
    if Linkable(w', owner, pairs[1..]) {
      forall i | 0 < i < |pairs|
        ensures OwnedPair(w, owner, pairs[i]) && pairs[i] !in w.connections && pairs[i] != pairs[0]
      {
        assert pairs[i] == pairs[1..][i - 1] && OwnedPair(w', owner, pairs[1..][i - 1]);
      }
      forall i, j | 0 <= i < j < |pairs| ensures pairs[i] != pairs[j] {
        if i > 0 { assert pairs[i] == pairs[1..][i - 1] && pairs[j] == pairs[1..][j - 1]; }
      }
    }
  }

  // Every channel is paired with every thing.
  lemma {:induction false} PairsAreProduct(chans: seq<nat>, things: seq<nat>)
    ensures forall p :: p in Pairs(chans, things) <==> p.0 in chans && p.1 in things
    decreases |chans|
  {
    if chans != [] {
      RowIsProduct(chans[0], things);
      PairsAreProduct(chans[1..], things);
    }
  }

  lemma {:induction false} RowIsProduct(c: nat, things: seq<nat>)
    ensures forall p :: p in Row(c, things) <==> p.0 == c && p.1 in things
    decreases |things|
  {
    if things != [] { RowIsProduct(c, things[1..]); }
  }

  lemma ConnectedKeepsInv(w: World, owner: string, chans: seq<nat>, things: seq<nat>)
    requires Inv(w)
    ensures Inv(Connected(w, owner, chans, things))
  {
    if Link(w, owner, Pairs(chans, things)).Linked? {
      LinkIff(w, owner, Pairs(chans, things));
      var pairs := Pairs(chans, things);
      forall p | p in pairs ensures OwnedPair(w, owner, p) {
        var i :| 0 <= i < |pairs| && pairs[i] == p;
      }
    }
  }

  lemma ForgetConnectionKeepsInv(w: World, chan: nat, id: nat)
    requires Inv(w)
    ensures Inv(ForgetConnection(w, chan, id)) && !Cached(ForgetConnection(w, chan, id), chan, id)
  {
    var w' := ForgetConnection(w, chan, id);
    forall k | k in w'.idOf ensures Holds(w', k, w'.idOf[k]) {
      assert Holds(w, k, w.idOf[k]);
    }
    forall c: nat, t: nat | Cached(w', c, t) && t in w'.things ensures (c, t) in w'.connections {
      assert Cached(w, c, t);
    }
  }

  lemma UnlinkedKeepsInv(w: World, chan: nat, id: nat)
    requires Inv(w) && !Cached(w, chan, id)
    ensures Inv(w.(connections := w.connections - {(chan, id)}))
  {
    hide KeysCached;
    var w' := w.(connections := w.connections - {(chan, id)});
    assert KeysCached(w') by { KeysIgnoreConnections(w, w'.connections); }
    forall c: nat, t: nat | Cached(w', c, t) && t in w'.things ensures (c, t) in w'.connections {
      assert Cached(w, c, t);
    }
  }

  lemma KeysIgnoreConnections(w: World, connections: set<(nat, nat)>)
    requires KeysCached(w)
    ensures KeysCached(w.(connections := connections))
  {
    var w' := w.(connections := connections);
    forall k | k in w'.idOf ensures Holds(w', k, w'.idOf[k]) {
      assert Holds(w, k, w.idOf[k]);
    }
  }

  lemma DisconnectedKeepsInv(w: World, owner: string, chan: nat, id: nat)
    requires Inv(w)
    ensures Inv(Disconnected(w, owner, chan, id, true))
  {
    hide Inv, ForgetConnection;
    ForgetConnectionKeepsInv(w, chan, id);
    ForgetsOnlyMembers(w, chan, id);
    UnlinkedKeepsInv(ForgetConnection(w, chan, id), chan, id);
  }

  lemma ForgetsOnlyMembers(w: World, chan: nat, id: nat)
    ensures ForgetConnection(w, chan, id).connections == w.connections
  {
  }

  lemma ForgetThingKeepsInv(w: World, id: nat)
    requires Inv(w)
    ensures var w' := ForgetThing(w, id); Inv(w') && w' == w.(idOf := w'.idOf, keyOf := w'.keyOf)
  {
    hide Tables;
    var w' := ForgetThing(w, id);
    assert Tables(w') by { assert Tables(w); TablesIgnoreKeys(w, w'.idOf, w'.keyOf); }
    forall k | k in w'.idOf ensures Holds(w', k, w'.idOf[k]) {
      assert k in w.idOf && Holds(w, k, w.idOf[k]);
    }
    forall c: nat, t: nat | Cached(w', c, t) && t in w'.things ensures (c, t) in w'.connections {
      assert Cached(w, c, t);
    }
  }

  // The thing is cached by its key, but the reverse entry to remove it by is missing.
  predicate Unforgettable(w: World, owner: string, id: nat) {
    && id in w.things && w.things[id].owner == owner
    && w.things[id].key in w.idOf && !(id in w.keyOf && w.keyOf[id] == w.things[id].key)
  }

  lemma NoneLeft(w: World, owner: string, id: nat)
    requires Inv(w) && id in w.things && w.things[id].owner == owner && !Unforgettable(w, owner, id)
    ensures var w' := ForgetThing(w, id); forall k :: k in w'.idOf ==> w'.idOf[k] != id
  {
    hide Tables, ConnectionsCached;
    forall k | k in ForgetThing(w, id).idOf ensures w.idOf[k] != id {
      assert Holds(w, k, w.idOf[k]);
    }
  }

  lemma TablesIgnoreKeys(w: World, idOf: map<Key, nat>, keyOf: map<nat, Key>)
    requires Tables(w)
    ensures Tables(w.(idOf := idOf, keyOf := keyOf))
  {
  }

  lemma RowRemovedKeepsInv(w: World, id: nat)
    requires Inv(w) && forall k :: k in w.idOf ==> w.idOf[k] != id
    ensures Inv(w.(things := w.things - {id}, connections := set p | p in w.connections && p.1 != id))
  {
    var w' := w.(things := w.things - {id}, connections := set p | p in w.connections && p.1 != id);
    forall k | k in w'.idOf ensures Holds(w', k, w'.idOf[k]) {
      assert Holds(w, k, w.idOf[k]);
    }
    forall c: nat, t: nat | Cached(w', c, t) && t in w'.things ensures (c, t) in w'.connections {
      assert Cached(w, c, t);
    }
  }

  // The channel cache is left alone: its entries for the removed thing become stale but unreachable by key.
  lemma ThingRemovedKeepsInv(w: World, owner: string, id: nat)
    requires Inv(w) && !Unforgettable(w, owner, id)
    ensures Inv(ThingRemoved(w, owner, id, true))
  {
    hide Inv, ForgetThing, Unforgettable;
    ForgetThingKeepsInv(w, id);
    if id in w.things && w.things[id].owner == owner {
      NoneLeft(w, owner, id);
      RowRemovedKeepsInv(ForgetThing(w, id), id);
    }
  }

  lemma ChannelRemovedKeepsInv(w: World, owner: string, chan: nat)
    requires Inv(w)
    ensures Inv(ChannelRemoved(w, owner, chan, true))
  {
    var w' := ChannelRemoved(w, owner, chan, true);
    forall c: nat, t: nat | Cached(w', c, t) && t in w'.things ensures (c, t) in w'.connections {
      assert Cached(w, c, t);
    }
  }

  lemma CacheConnectionKeepsInv(w: World, chan: nat, id: nat)
    requires Inv(w) && (chan, id) in w.connections
    ensures Inv(CacheConnection(w, chan, id))
  {
    var w' := CacheConnection(w, chan, id);
    forall c: nat, t: nat | Cached(w', c, t) && t in w'.things ensures (c, t) in w'.connections {
      assert Cached(w, c, t) || (c == chan && t == id);
    }
  }

  lemma CacheThingKeepsInv(w: World, key: Key, id: nat, saves: Saving)
    requires Inv(w) && Holds(w, key, id)
    ensures var w' := CacheThing(w, key, id, saves); Inv(w') && w'.connections == w.connections
  {
    hide Tables;
    var w' := CacheThing(w, key, id, saves);
    assert Tables(w') by { assert Tables(w); TablesIgnoreKeys(w, w'.idOf, w'.keyOf); }
    forall k | k in w'.idOf ensures Holds(w', k, w'.idOf[k]) {
      assert k == key || (k in w.idOf && Holds(w, k, w.idOf[k]));
    }
    forall c: nat, t: nat | Cached(w', c, t) && t in w'.things ensures (c, t) in w'.connections {
      assert Cached(w, c, t);
    }
  }

  // A query keeps the invariant whichever of its writes go through.
  lemma AccessByKeyKeepsInv(w: World, chan: nat, key: Key, cache: Caching)
    requires Inv(w)
    ensures Inv(AccessByKey(w, chan, key, cache).0)
  {
    hide Inv, FastPath, CacheThing, CacheConnection;
    if HasThing(w, chan, key).Granted? {
      var id := HasThing(w, chan, key).id;
      CacheThingKeepsInv(w, key, id, cache.saves);
      CacheConnectionKeepsInv(CacheThing(w, key, id, cache.saves), chan, id);
    }
  }

  // ----- runs

  datatype Op =
    | OpCreateThings(owner: string, batch: seq<Thing>)
    | OpCreateChannels(owner: string, n: nat)
    | OpCreationFails(issued: nat)            // the identifier provider fails after some identifiers
    | OpConnect(owner: string, chans: seq<nat>, things: seq<nat>)
    | OpDisconnect(owner: string, chan: nat, id: nat, forgets: bool)
    | OpRemoveThing(owner: string, id: nat, forgets: bool)
    | OpRemoveChannel(owner: string, chan: nat, forgets: bool)
    | OpUpdateKey(owner: string, id: nat, newKey: Key)
    | OpAccessByKey(chan: nat, key: Key, cache: Caching)
    | OpAccessByID(chan: nat, id: nat, cache: Caching)
    | OpIdentify(key: Key, cache: Caching)

  ghost function Step(w: World, op: Op): World {
    match op
    case OpCreateThings(owner, batch) => ThingsCreated(w, owner, batch)
    case OpCreateChannels(owner, n) => ChannelsCreated(w, owner, n)
    case OpCreationFails(issued) => w.(next := w.next + issued)
    case OpConnect(owner, chans, things) => Connected(w, owner, chans, things)
    case OpDisconnect(owner, chan, id, forgets) => Disconnected(w, owner, chan, id, forgets)
    case OpRemoveThing(owner, id, forgets) => ThingRemoved(w, owner, id, forgets)
    case OpRemoveChannel(owner, chan, forgets) => ChannelRemoved(w, owner, chan, forgets)
    case OpUpdateKey(owner, id, key) => KeyUpdated(w, owner, id, key)
    case OpAccessByKey(chan, key, cache) => AccessByKey(w, chan, key, cache).0
    case OpAccessByID(chan, id, cache) => AccessByID(w, chan, id, cache).0
    case OpIdentify(key, cache) => Identified(w, key, cache).0
  }

  ghost function Run(w: World, ops: seq<Op>): World
    decreases |ops|
  {
    if ops == [] then w else Run(Step(w, ops[0]), ops[1..])
  }

  // An update of a key that goes through and replaces it.
  predicate Changes(w: World, owner: string, id: nat, key: Key): (r: bool)
    ensures r ==> id in w.things && w.things[id].key != key
  {
    && id in w.things && w.things[id].owner == owner
    && w.things[id].key != key && !KeyTaken(w.things - {id}, key)
  }

  // The two steps the caches do not survive: a cached key is replaced, or a thing is removed of whose key only
  // the first half was saved.
  predicate Careful(w: World, op: Op) {
    match op
    case OpUpdateKey(owner, id, key) => !(Changes(w, owner, id, key) && w.things[id].key in w.idOf)
    case OpRemoveThing(owner, id, forgets) => !(forgets && Unforgettable(w, owner, id))
    case _ => true
  }

  ghost predicate CarefulRun(w: World, ops: seq<Op>)
    decreases |ops|
  {
    ops == [] || (Careful(w, ops[0]) && CarefulRun(Step(w, ops[0]), ops[1..]))
  }

  lemma StepKeepsInv(w: World, op: Op)
    requires Inv(w) && Careful(w, op)
    ensures Inv(Step(w, op))
  {
    hide ThingsCreated, ChannelsCreated, Connected, Unforgettable, Inv;
    match op
    case OpCreateThings(owner, batch) => ThingsCreatedKeepsInv(w, owner, batch);
    case OpCreateChannels(owner, n) => ChannelsCreatedKeepsInv(w, owner, n);
    case OpCreationFails(issued) => CreationFailsKeepsInv(w, issued);
    case OpConnect(owner, chans, things) => ConnectedKeepsInv(w, owner, chans, things);
    case OpDisconnect(owner, chan, id, forgets) => DisconnectedKeepsInv(w, owner, chan, id);
    case OpRemoveThing(owner, id, forgets) =>
      if forgets { ThingRemovedKeepsInv(w, owner, id); }
    case OpRemoveChannel(owner, chan, forgets) => ChannelRemovedKeepsInv(w, owner, chan);
    case OpUpdateKey(owner, id, key) => KeyUpdatedKeepsInv(w, owner, id, key);
    case OpAccessByKey(chan, key, cache) => AccessByKeyKeepsInv(w, chan, key, cache);
    case OpAccessByID(chan, id, cache) =>
      if HasThingByID(w, chan, id) { CacheConnectionKeepsInv(w, chan, id); }
    case OpIdentify(key, cache) =>
      if ByKey(w, key).Granted? { CacheThingKeepsInv(w, key, ByKey(w, key).id, cache.saves); }
  }

  lemma CreationFailsKeepsInv(w: World, issued: nat)
    requires Inv(w)
    ensures Inv(w.(next := w.next + issued))
  {
    var w' := w.(next := w.next + issued);
    forall k | k in w'.idOf ensures Holds(w', k, w'.idOf[k]) {
      assert Holds(w, k, w.idOf[k]);
    }
    forall c: nat, t: nat | Cached(w', c, t) && t in w'.things ensures (c, t) in w'.connections {
      assert Cached(w, c, t);
    }
  }

  lemma KeyUpdatedIs(w: World, owner: string, id: nat, key: Key)
    ensures var w' := KeyUpdated(w, owner, id, key);
            w' == if Changes(w, owner, id, key) then w.(things := w.things[id := w.things[id].(key := key)]) else w
  {
    if id in w.things && w.things[id].key == key {
      assert w.things[id := w.things[id].(key := key)] == w.things;
    }
  }

  // Keys stay unique, and every other row keeps its own.
  lemma KeyUpdatedRows(w: World, owner: string, id: nat, key: Key)
    requires Tables(w) && Changes(w, owner, id, key)
    ensures var w' := KeyUpdated(w, owner, id, key);
            && Tables(w') && Holds(w', key, id)
            && (forall k, a :: a != id ==> (Holds(w', k, a) <==> Holds(w, k, a)))
            && forall a :: a in w'.things <==> a in w.things
  {
    KeyUpdatedIs(w, owner, id, key);
    assert forall a :: a in w.things && a != id ==> a in w.things - {id};
  }

  lemma KeyUpdatedKeepsInv(w: World, owner: string, id: nat, key: Key)
    requires Inv(w) && !(Changes(w, owner, id, key) && w.things[id].key in w.idOf)
    ensures Inv(KeyUpdated(w, owner, id, key))
  {
    hide KeyUpdated, Changes, Tables;
    var w' := KeyUpdated(w, owner, id, key);
    KeyUpdatedIs(w, owner, id, key);
    if Changes(w, owner, id, key) {
      KeyUpdatedRows(w, owner, id, key);
      forall k | k in w'.idOf ensures Holds(w', k, w'.idOf[k]) {
        assert Holds(w, k, w.idOf[k]);
      }
      forall c: nat, t: nat | Cached(w', c, t) && t in w'.things ensures (c, t) in w'.connections {
        assert Cached(w, c, t);
      }
    }
  }

  lemma {:induction false} RunKeepsInv(w: World, ops: seq<Op>)
    requires Inv(w) && CarefulRun(w, ops)
    ensures Inv(Run(w, ops))
    decreases |ops|
  {
    hide Inv, Step, Careful;
    if ops != [] {
      StepKeepsInv(w, ops[0]);
      RunKeepsInv(Step(w, ops[0]), ops[1..]);
    }
  }

  // ----- the main results

  // After any run in which no cached key is replaced and no thing removed whose key is half saved, whatever else
  // fails, an access check by key and an identification answer as the repository alone would.
  lemma CachesRefineRepository(ops: seq<Op>, chan: nat, key: Key, cache: Caching)
    requires CarefulRun(EMPTY, ops)
    ensures var w := Run(EMPTY, ops);
            && Agrees(AccessByKey(w, chan, key, cache).1, HasThing(w, chan, key), cache.saves.Saved? && cache.links)
            && Agrees(Identified(w, key, cache).1, ByKey(w, key), cache.saves.Saved?)
  {
    hide Run, CarefulRun, Inv, AccessByKey, Identified;
    assert Inv(EMPTY) by { EmptyIsValid(); }
    RunKeepsInv(EMPTY, ops);
    AccessByKeyIsHasThing(Run(EMPTY, ops), chan, key, cache);
    IdentifyIsByKey(Run(EMPTY, ops), key, cache);
  }

  lemma EmptyIsValid()
    ensures Inv(EMPTY)
  {
  }

  // Every cached key has its reverse entry.
  predicate Reversible(w: World) {
    forall k :: k in w.idOf ==> w.idOf[k] in w.keyOf && w.keyOf[w.idOf[k]] == k
  }

  // No query saves half a key.
  predicate SavesWhole(op: Op) {
    match op
    case OpAccessByKey(_, _, cache) => !cache.saves.HalfSaved?
    case OpIdentify(_, cache) => !cache.saves.HalfSaved?
    case _ => true
  }

  lemma SavedKeyReversible(w: World, key: Key, id: nat, saves: Saving)
    requires Inv(w) && Reversible(w) && Holds(w, key, id) && !saves.HalfSaved?
    ensures Reversible(CacheThing(w, key, id, saves))
  {
    hide Tables, ConnectionsCached;
    var w' := CacheThing(w, key, id, saves);
    forall k | k in w'.idOf ensures w'.idOf[k] in w'.keyOf && w'.keyOf[w'.idOf[k]] == k {
      if k != key { assert Holds(w, k, w.idOf[k]); }
    }
  }

  lemma RemovedReversible(w: World, owner: string, id: nat)
    requires Inv(w) && Reversible(w)
    ensures Reversible(ThingRemoved(w, owner, id, true)) && !Unforgettable(w, owner, id)
  {
    if id in w.things && w.things[id].key in w.idOf {
      assert Holds(w, w.things[id].key, w.idOf[w.things[id].key]);
      assert UniqueKeys(w);
    }
  }

  lemma GrantedHolds(w: World, chan: nat, key: Key)
    requires HasThing(w, chan, key).Granted?
    ensures Holds(w, key, HasThing(w, chan, key).id)
  {
  }

  lemma StepReversible(w: World, op: Op)
    requires Inv(w) && Reversible(w) && SavesWhole(op)
    ensures Reversible(Step(w, op)) && (op.OpRemoveThing? ==> Careful(w, op))
  {
    hide Inv, Insert, Link, WithChannels, FastPath, HasThing, ByKey, Holds, CacheThing, Stamp, Unforgettable;
    match op
    case OpAccessByKey(chan, key, cache) =>
      if HasThing(w, chan, key).Granted? {
        GrantedHolds(w, chan, key);
        SavedKeyReversible(w, key, HasThing(w, chan, key).id, cache.saves);
      }
    case OpIdentify(key, cache) =>
      if ByKey(w, key).Granted? { SavedKeyReversible(w, key, ByKey(w, key).id, cache.saves); }
    case OpRemoveThing(owner, id, forgets) => RemovedReversible(w, owner, id);
    case _ =>
  }

  // No step replaces a cached key.
  ghost predicate KeepsKeys(w: World, ops: seq<Op>)
    decreases |ops|
  {
    ops == [] || ((ops[0].OpUpdateKey? ==> Careful(w, ops[0])) && KeepsKeys(Step(w, ops[0]), ops[1..]))
  }

  // In a run that saves whole keys that is all there is to avoid.
  lemma {:induction false} WholeKeysAreCareful(w: World, ops: seq<Op>)
    requires Inv(w) && Reversible(w) && KeepsKeys(w, ops)
    requires forall i :: 0 <= i < |ops| ==> SavesWhole(ops[i])
    ensures CarefulRun(w, ops)
    decreases |ops|
  {
    hide Inv, Reversible, Step, SavesWhole;
    if ops != [] {
      StepReversible(w, ops[0]);
      StepKeepsInv(w, ops[0]);
      WholeKeysAreCareful(Step(w, ops[0]), ops[1..]);
    }
  }

  // So a run in which every key is saved whole or not at all and no cached key is replaced keeps the refinement.
  lemma WholeKeysRefine(ops: seq<Op>, chan: nat, key: Key, cache: Caching)
    requires KeepsKeys(EMPTY, ops) && forall i :: 0 <= i < |ops| ==> SavesWhole(ops[i])
    ensures var w := Run(EMPTY, ops);
            && Agrees(AccessByKey(w, chan, key, cache).1, HasThing(w, chan, key), cache.saves.Saved? && cache.links)
            && Agrees(Identified(w, key, cache).1, ByKey(w, key), cache.saves.Saved?)
  {
    hide Run, CarefulRun, KeepsKeys, Inv, AccessByKey, Identified;
    EmptyIsValid();
    WholeKeysAreCareful(EMPTY, ops);
    CachesRefineRepository(ops, chan, key, cache);
  }

  predicate SameTables(w: World, w': World) {
    w'.things == w.things && w'.channels == w.channels && w'.connections == w.connections
  }

  // Access checks and identifications change no table.
  lemma QueriesOnlyCache(w: World, chan: nat, key: Key, id: nat, cache: Caching)
    ensures SameTables(w, AccessByKey(w, chan, key, cache).0)
    ensures SameTables(w, AccessByID(w, chan, id, cache).0)
    ensures SameTables(w, Identified(w, key, cache).0)
  {
    hide AccessByKey, AccessByID, Identified, SameTables;
    AccessByKeyOnlyCaches(w, chan, key, cache);
    AccessByIDOnlyCaches(w, chan, id, cache);
    IdentifyOnlyCaches(w, key, cache);
  }

  lemma AccessByKeyOnlyCaches(w: World, chan: nat, key: Key, cache: Caching)
    ensures SameTables(w, AccessByKey(w, chan, key, cache).0)
  {
    hide HasThing, FastPath, CacheThing, CacheConnection;
    if HasThing(w, chan, key).Granted? {
      CachingKeepsTables(w, chan, key, HasThing(w, chan, key).id, cache.saves);
    }
  }

  lemma CachingKeepsTables(w: World, chan: nat, key: Key, id: nat, saves: Saving)
    ensures SameTables(w, CacheThing(w, key, id, saves))
    ensures SameTables(w, CacheConnection(CacheThing(w, key, id, saves), chan, id))
  {
  }

  lemma AccessByIDOnlyCaches(w: World, chan: nat, id: nat, cache: Caching)
    ensures SameTables(w, AccessByID(w, chan, id, cache).0)
  {
  }

  lemma IdentifyOnlyCaches(w: World, key: Key, cache: Caching)
    ensures SameTables(w, Identified(w, key, cache).0)
  {
    hide ByKey, CacheThing;
    if ByKey(w, key).Granted? { CachingKeepsTables(w, 0, key, ByKey(w, key).id, cache.saves); }
  }
}
