// What every operation of the service does to the tables and the answers, stated on rows, pairs and answers.
module ThingEffects {
  import opened Wrappers
  import opened ThingAccess
  import opened ThingProofs

  // ----- the repository's answers

  // A key is granted on a channel exactly when its holder is connected; the reason tells which of the two fails.
  lemma HasThingIff(w: World, chan: nat, key: Key, id: nat)
    requires UniqueKeys(w)
    ensures HasThing(w, chan, key) == Granted(id) <==> Holds(w, key, id) && (chan, id) in w.connections
    ensures HasThing(w, chan, key) == Refused(KeyUnknown) <==> forall a: nat :: !Holds(w, key, a)
    ensures HasThing(w, chan, key) == Refused(NotConnected)
       <==> exists a: nat :: Holds(w, key, a) && (chan, a) !in w.connections
  {
    if a: nat :| Holds(w, key, a) {
      ByKeyIsHolder(w, key, a);
    }
  }

  lemma ByKeyIff(w: World, key: Key, id: nat)
    requires UniqueKeys(w)
    ensures ByKey(w, key) == Granted(id) <==> Holds(w, key, id)
    ensures ByKey(w, key) == Refused(NotFound) <==> forall a: nat :: !Holds(w, key, a)
  {
    if a: nat :| Holds(w, key, a) {
      ByKeyIsHolder(w, key, a);
    }
  }

  // ----- the answers of the service, whatever the caches do

  // A hit is granted. A miss is answered by the repository, but a grant that cannot be cached is a failure.
  lemma AccessByKeyAnswer(w: World, chan: nat, key: Key, cache: Caching)
    requires Inv(w)
    ensures AccessByKey(w, chan, key, cache).1
         == if HasThing(w, chan, key).Granted? && !(cache.saves == Saved && cache.links)
               && !(cache.answers && key in w.idOf && Cached(w, chan, w.idOf[key]))
            then Refused(CacheFailed) else HasThing(w, chan, key)
  {
    if key in w.idOf {
      ByKeyIsHolder(w, key, w.idOf[key]);
    }
  }

  lemma IdentifyAnswer(w: World, key: Key, cache: Caching)
    requires Inv(w)
    ensures Identified(w, key, cache).1
         == if ByKey(w, key).Granted? && cache.saves != Saved && !(cache.answers && key in w.idOf)
            then Refused(CacheFailed) else ByKey(w, key)
  {
    if key in w.idOf {
      ByKeyIsHolder(w, key, w.idOf[key]);
    }
  }

  function ByIDTruth(w: World, chan: nat, id: nat): Answer {
    if (chan, id) in w.connections then Granted(id) else Refused(NotConnected)
  }

  // By ID the answer is the repository's, or a failure to cache a grant, exactly unless the channel cache can be
  // read and still holds a thing that was removed.
  lemma AccessByIDAgreesIff(w: World, chan: nat, id: nat, cache: Caching)
    requires Inv(w)
    ensures Agrees(AccessByID(w, chan, id, cache).1, ByIDTruth(w, chan, id), cache.links)
       <==> !(cache.answers && Cached(w, chan, id) && id !in w.things)
  {
    assert Cached(w, chan, id) && id in w.things ==> (chan, id) in w.connections;
  }

  lemma AccessByIDAnswer(w: World, chan: nat, id: nat, cache: Caching)
    ensures AccessByID(w, chan, id, cache).1
         == if cache.answers && chan in w.members && id in w.members[chan] then Granted(id)
            else if (chan, id) !in w.connections then Refused(NotConnected)
            else if cache.links then Granted(id) else Refused(CacheFailed)
  {
  }

  // The thing cache keeps its keys, and a new or changed entry is the key asked for, with its holder.
  predicate AddsKey(w: World, w': World, key: Key) {
    && (forall k :: k in w.idOf ==> k in w'.idOf)
    && forall k :: k in w'.idOf ==> (k in w.idOf && w'.idOf[k] == w.idOf[k]) || (k == key && Holds(w, k, w'.idOf[k]))
  }

  ghost predicate AddsConnection(w: World, w': World, chan: nat, r: Answer) {
    forall c: nat, t: nat :: Cached(w', c, t) <==> Cached(w, c, t) || (c == chan && r == Granted(t))
  }

  // What is granted is cached, and nothing else is.
  lemma AccessByKeyCaches(w: World, chan: nat, key: Key, cache: Caching)
    ensures var (w', r) := AccessByKey(w, chan, key, cache);
            && AddsKey(w, w', key) && AddsConnection(w, w', chan, r)
            && (r.Granted? ==> key in w'.idOf && w'.idOf[key] == r.id)
  {
    hide HasThing;
    if HasThing(w, chan, key).Granted? { GrantedHolds(w, chan, key); }
  }

  lemma AccessByIDCaches(w: World, chan: nat, id: nat, cache: Caching)
    ensures var (w', r) := AccessByID(w, chan, id, cache);
            AddsConnection(w, w', chan, r) && w' == w.(members := w'.members) && (r.Granted? ==> r.id == id)
  {
  }

  lemma IdentifyCaches(w: World, key: Key, cache: Caching)
    ensures var (w', r) := Identified(w, key, cache);
            && AddsKey(w, w', key) && w' == w.(idOf := w'.idOf, keyOf := w'.keyOf)
            && (r.Granted? ==> key in w'.idOf && w'.idOf[key] == r.id)
  {
    hide ByKey;
  }

  // A key that could not be saved at all leaves the thing cache as it was.
  lemma UnsavedChangesNothing(w: World, chan: nat, key: Key, cache: Caching)
    requires cache.saves == Unsaved
    ensures var w' := AccessByKey(w, chan, key, cache).0; w'.idOf == w.idOf && w'.keyOf == w.keyOf
    ensures Identified(w, key, cache).0 == w
  {
    hide HasThing, ByKey;
  }

  // ----- creating

  // A batch that can be inserted is added, any other changes no row; nothing else changes but the next identifier.
  lemma ThingsCreatedIff(w: World, owner: string, batch: seq<Thing>)
    ensures var (stamped, next) := Stamp(batch, owner, w.next);
            var w' := ThingsCreated(w, owner, batch);
            && w' == w.(things := w'.things, next := next)
            && (if Insertable(w.things, stamped) then
                  forall id :: id in w'.things
                    <==> id in w.things || exists i :: 0 <= i < |stamped| && stamped[i].id == id
                else w'.things == w.things)
            && (Insertable(w.things, stamped) ==>
                  forall i :: 0 <= i < |stamped| ==>
                    stamped[i].id in w'.things && w'.things[stamped[i].id] == stamped[i])
            && forall id :: id in w.things ==> id in w'.things && w'.things[id] == w.things[id]
  {
    var (stamped, next) := Stamp(batch, owner, w.next);
    InsertIff(w.things, stamped);
    hide Insert, Insertable, Stamp;
    var w' := ThingsCreated(w, owner, batch);
    if Insert(w.things, stamped).Some? {
      forall i | 0 <= i < |stamped| ensures stamped[i].id in w'.things {
        assert w'.things[stamped[i].id] == stamped[i];
      }
    }
  }

  lemma ChannelsCreatedRows(w: World, owner: string, n: nat)
    ensures var w' := ChannelsCreated(w, owner, n);
            && w' == w.(channels := w'.channels, next := w.next + n)
            && (forall c :: c in w'.channels <==> c in w.channels || w.next <= c < w.next + n)
            && (forall c :: w.next <= c < w.next + n ==> w'.channels[c] == owner)
            && forall c :: c in w.channels && c < w.next ==> w'.channels[c] == w.channels[c]
  {
    hide WithChannels;
  }

  // ----- connecting

  // A pair that stops the transaction, and why.
  predicate Stops(w: World, owner: string, pairs: seq<(nat, nat)>, i: nat, why: Failure)
    requires i < |pairs|
  {
    if !OwnedPair(w, owner, pairs[i]) then why == NotFound
    else (pairs[i] in w.connections || pairs[i] in pairs[..i]) && why == Conflict
  }

  // `Connect` reports the first pair that cannot be connected: not found when an end is missing or another's,
  // a conflict when the pair is connected already or named before.
  lemma {:induction false} LinkReason(w: World, owner: string, pairs: seq<(nat, nat)>) returns (i: nat)
    requires Link(w, owner, pairs).NotLinked?
    ensures i < |pairs| && Stops(w, owner, pairs, i, Link(w, owner, pairs).why)
    ensures forall j, why :: 0 <= j < i ==> !Stops(w, owner, pairs, j, why)
    decreases |pairs|
  {
    i := 0;
    if OwnedPair(w, owner, pairs[0]) && pairs[0] !in w.connections {
      var w' := w.(connections := w.connections + {pairs[0]});
      var i' := LinkReason(w', owner, pairs[1..]);
      i := i' + 1;
      forall j, why | 0 < j <= i
        ensures Stops(w, owner, pairs, j, why) <==> Stops(w', owner, pairs[1..], j - 1, why)
      {
        assert pairs[1..][j - 1] == pairs[j] && pairs[1..][..j - 1] == pairs[1..j];
        assert pairs[..j] == [pairs[0]] + pairs[1..j];
      }
    }
  }

  lemma ConnectedRows(w: World, owner: string, chans: seq<nat>, things: seq<nat>)
    ensures var w' := Connected(w, owner, chans, things);
            && w' == w.(connections := w'.connections)
            && (if Linkable(w, owner, Pairs(chans, things)) then
                  forall p :: p in w'.connections <==> p in w.connections || (p.0 in chans && p.1 in things)
                else w' == w)
  {
    LinkIff(w, owner, Pairs(chans, things));
    PairsAreProduct(chans, things);
    hide Link, Pairs, Linkable;
  }

  // ----- disconnecting

  // Exactly the owner's connection goes, and with it the pair's entry in the channel cache, whoever asks.
  lemma DisconnectedRows(w: World, owner: string, chan: nat, id: nat)
    ensures var w' := Disconnected(w, owner, chan, id, true);
            && w' == w.(connections := w'.connections, members := w'.members)
            && (forall p :: p in w'.connections
                  <==> p in w.connections && !(p == (chan, id) && chan in w.channels && w.channels[chan] == owner))
            && forall c, t :: Cached(w', c, t) <==> Cached(w, c, t) && !(c == chan && t == id)
  {
  }

  // A cache that cannot be told stops every removal.
  lemma UntoldChangesNothing(w: World, owner: string, chan: nat, id: nat)
    ensures Disconnected(w, owner, chan, id, false) == w
    ensures ThingRemoved(w, owner, id, false) == w
    ensures ChannelRemoved(w, owner, chan, false) == w
  {
  }

  // A disconnected pair is let in no more, by ID or by any key, whatever the caches answer.
  lemma DisconnectedIsRefused(w: World, owner: string, chan: nat, id: nat, key: Key, cache: Caching)
    requires Inv(w) && chan in w.channels && w.channels[chan] == owner
    ensures var w' := Disconnected(w, owner, chan, id, true);
            && !HasThingByID(w', chan, id)
            && AccessByID(w', chan, id, cache).1 == Refused(NotConnected)
            && HasThing(w', chan, key) != Granted(id)
            && AccessByKey(w', chan, key, cache).1 != Granted(id)
  {
    hide Disconnected, Inv, HasThing, AccessByKey;
    var w' := Disconnected(w, owner, chan, id, true);
    DisconnectedKeepsInv(w, owner, chan, id);
    DisconnectedRows(w, owner, chan, id);
    InvUnique(w');
    HasThingIff(w', chan, key, id);
    AccessByKeyIsHasThing(w', chan, key, cache);
  }

  // Every other pair is answered as before, and a disconnect by another owner disconnects nothing.
  lemma DisconnectedOthers(w: World, owner: string, chan: nat, id: nat, c: nat, t: nat, key: Key)
    requires Inv(w) && ((c, t) != (chan, id) || chan !in w.channels || w.channels[chan] != owner)
    ensures var w' := Disconnected(w, owner, chan, id, true);
            && (HasThingByID(w', c, t) <==> HasThingByID(w, c, t))
            && (HasThing(w', c, key) == Granted(t) <==> HasThing(w, c, key) == Granted(t))
  {
    hide Disconnected, Inv, HasThing;
    var w' := Disconnected(w, owner, chan, id, true);
    DisconnectedKeepsInv(w, owner, chan, id);
    DisconnectedRows(w, owner, chan, id);
    InvUnique(w);
    InvUnique(w');
    HasThingIff(w, c, key, t);
    HasThingIff(w', c, key, t);
  }

  lemma InvUnique(w: World)
    requires Inv(w)
    ensures UniqueKeys(w)
  {
  }

  // ----- removing

  // The owner's thing goes with its connections and its entries in the thing cache; the rest stays.
  lemma ThingRemovedRows(w: World, owner: string, id: nat)
    ensures var w' := ThingRemoved(w, owner, id, true);
            var gone := id in w.things && w.things[id].owner == owner;
            && w' == w.(things := w'.things, connections := w'.connections, idOf := w'.idOf, keyOf := w'.keyOf)
            && (forall a :: a in w'.things <==> a in w.things && !(gone && a == id))
            && (forall a :: a in w'.things ==> w'.things[a] == w.things[a])
            && (forall p :: p in w'.connections <==> p in w.connections && !(gone && p.1 == id))
            && (forall k :: k in w'.idOf <==> k in w.idOf && !(id in w.keyOf && w.keyOf[id] == k))
            && (forall k :: k in w'.idOf ==> w'.idOf[k] == w.idOf[k])
            && (forall a :: a in w'.keyOf <==> a in w.keyOf && a != id)
            && forall a :: a in w'.keyOf ==> w'.keyOf[a] == w.keyOf[a]
  {
  }

  // The owner's channel goes with its connections, its entries in the channel cache go whoever asks.
  lemma ChannelRemovedRows(w: World, owner: string, chan: nat)
    ensures var w' := ChannelRemoved(w, owner, chan, true);
            var gone := chan in w.channels && w.channels[chan] == owner;
            && w' == w.(channels := w'.channels, connections := w'.connections, members := w'.members)
            && (forall c :: c in w'.channels <==> c in w.channels && !(gone && c == chan))
            && (forall c :: c in w'.channels ==> w'.channels[c] == w.channels[c])
            && (forall p :: p in w'.connections <==> p in w.connections && !(gone && p.0 == chan))
            && forall c, t :: Cached(w', c, t) <==> Cached(w, c, t) && c != chan
  {
  }

  // Nothing is let into a removed channel, by ID or by key.
  lemma RemovedChannelRefuses(w: World, owner: string, chan: nat, id: nat, key: Key, cache: Caching)
    requires Inv(w) && chan in w.channels && w.channels[chan] == owner
    ensures var w' := ChannelRemoved(w, owner, chan, true);
            && AccessByID(w', chan, id, cache).1 == Refused(NotConnected)
            && AccessByKey(w', chan, key, cache).1.Refused?
  {
    hide ChannelRemoved, Inv, HasThing, AccessByKey;
    var w' := ChannelRemoved(w, owner, chan, true);
    ChannelRemovedKeepsInv(w, owner, chan);
    ChannelRemovedRows(w, owner, chan);
    InvUnique(w');
    AccessByKeyIsHasThing(w', chan, key, cache);
    if HasThing(w', chan, key).Granted? { HasThingIff(w', chan, key, HasThing(w', chan, key).id); }
  }

  // A removed thing is let in by no key and identified by none, unless only half of its key was saved.
  lemma RemovedThingRefused(w: World, owner: string, id: nat, chan: nat, key: Key, cache: Caching)
    requires Inv(w) && id in w.things && w.things[id].owner == owner && !Unforgettable(w, owner, id)
    ensures var w' := ThingRemoved(w, owner, id, true);
            AccessByKey(w', chan, key, cache).1 != Granted(id) && Identified(w', key, cache).1 != Granted(id)
  {
    hide ThingRemoved, Inv, HasThing, ByKey, AccessByKey, Identified;
    var w' := ThingRemoved(w, owner, id, true);
    ThingRemovedKeepsInv(w, owner, id);
    ThingRemovedRows(w, owner, id);
    InvUnique(w');
    HasThingIff(w', chan, key, id);
    ByKeyIff(w', key, id);
    AccessByKeyIsHasThing(w', chan, key, cache);
    IdentifyIsByKey(w', key, cache);
  }

  // ----- replacing a key

  // The owner's thing gets the key unless another thing has it; nothing else changes, in the tables or the caches.
  lemma KeyUpdatedIff(w: World, owner: string, id: nat, key: Key)
    ensures var w' := KeyUpdated(w, owner, id, key);
            var mine := id in w.things && w.things[id].owner == owner;
            var taken := exists a: nat :: a != id && Holds(w, key, a);
            && w' == w.(things := w'.things)
            && (forall a :: a in w'.things <==> a in w.things)
            && (forall a :: a in w.things && !(a == id && mine && !taken) ==> w'.things[a] == w.things[a])
            && (mine && !taken ==> w'.things[id] == Thing(id, owner, key).(id := w.things[id].id))
  {
    if id in w.things && w.things[id].owner == owner {
      assert forall a :: a in w.things && a != id ==> a in w.things - {id};
      if KeyTaken(w.things - {id}, key) {
        var a :| a in w.things - {id} && (w.things - {id})[a].key == key;
        assert a != id && Holds(w, key, a);
      }
    }
  }
}
