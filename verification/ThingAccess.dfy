// Things, channels and their connections, with the two caches that answer access checks first.
module ThingAccess {
  import opened Wrappers

  // Identifiers come from a provider that never repeats one. A key is chosen by the caller or issued.
  datatype Key = Chosen(text: string) | Issued(n: nat)

  datatype Thing = Thing(id: nat, owner: string, key: Key)

  datatype Channel = Channel(id: nat, owner: string)

  datatype Failure = Unauthorized | KeyUnknown | NotConnected | NotFound | Conflict | NoIdentifier | CacheFailed

  datatype Answer = Granted(id: nat) | Refused(why: Failure)

  // Saving a key takes two writes; the first may go through alone.
  datatype Saving = Saved | HalfSaved | Unsaved

  // What the caches answer during one query: whether they can be read, how far saving a key gets, and whether
  // a connection can be written. A failed read counts as a miss.
  datatype Caching = Caching(answers: bool, saves: Saving, links: bool)

  const WORKING := Caching(true, Saved, true)

  // The tables, the two directions of the thing cache, and the channel cache.
  datatype World = World(
    things: map<nat, Thing>,
    channels: map<nat, string>,
    connections: set<(nat, nat)>,
    idOf: map<Key, nat>,
    keyOf: map<nat, Key>,
    members: map<nat, set<nat>>,
    next: nat)

  // The empty identifier; the provider's start behind it.
  const NO_ID := 0
  const EMPTY := World(map[], map[], {}, map[], map[], map[], 1)

  // ----- the repository: its contract

  predicate Holds(w: World, key: Key, id: nat) {
    id in w.things && w.things[id].key == key
  }

  // `RetrieveByKey`
  ghost function ByKey(w: World, key: Key): (r: Answer)
    ensures r.Granted? ==> Holds(w, key, r.id)
    ensures r.Refused? ==> r == Refused(NotFound) && forall id :: !Holds(w, key, id)
  {
    if exists id :: Holds(w, key, id) then
      var id :| Holds(w, key, id);
      Granted(id)
    else Refused(NotFound)
  }

  // `ChannelRepository.HasThing`
  ghost function HasThing(w: World, chan: nat, key: Key): Answer {
    match ByKey(w, key)
    case Refused(_) => Refused(KeyUnknown)
    case Granted(id) => if (chan, id) in w.connections then Granted(id) else Refused(NotConnected)
  }

  predicate HasThingByID(w: World, chan: nat, id: nat) {
    (chan, id) in w.connections
  }

  predicate KeyTaken(things: map<nat, Thing>, key: Key) {
    exists id :: id in things && things[id].key == key
  }

  // `Save` is one transaction: a repeated identifier or key undoes all of it.
  function Insert(things: map<nat, Thing>, batch: seq<Thing>): Option<map<nat, Thing>>
    decreases |batch|
  {
    if batch == [] then Some(things)
    else if batch[0].id in things || KeyTaken(things, batch[0].key) then None
    else Insert(things[batch[0].id := batch[0]], batch[1..])
  }

  datatype Linking = Linked(connections: set<(nat, nat)>) | NotLinked(why: Failure)

  // `Connect` is one transaction too; both ends must exist under this owner and the pair must be new.
  function Link(w: World, owner: string, pairs: seq<(nat, nat)>): Linking
    decreases |pairs|
  {
    if pairs == [] then Linked(w.connections)
    else
      var (c, t) := pairs[0];
      if c !in w.channels || w.channels[c] != owner || t !in w.things || w.things[t].owner != owner then
        NotLinked(NotFound)
      else if (c, t) in w.connections then NotLinked(Conflict)
      else Link(w.(connections := w.connections + {(c, t)}), owner, pairs[1..])
  }

  function Pairs(chans: seq<nat>, things: seq<nat>): seq<(nat, nat)> {
    if chans == [] then [] else Row(chans[0], things) + Pairs(chans[1..], things)
  }

  function Row(c: nat, things: seq<nat>): seq<(nat, nat)> {
    if things == [] then [] else [(c, things[0])] + Row(c, things[1..])
  }

  // ----- the caches

  predicate Cached(w: World, chan: nat, id: nat) {
    chan in w.members && id in w.members[chan]
  }

  // By key first, then the reverse entry.
  function CacheThing(w: World, key: Key, id: nat, saves: Saving): World {
    match saves
    case Saved => w.(idOf := w.idOf[key := id], keyOf := w.keyOf[id := key])
    case HalfSaved => w.(idOf := w.idOf[key := id])
    case Unsaved => w
  }

  function CacheConnection(w: World, chan: nat, id: nat): World {
    w.(members := w.members[chan := (if chan in w.members then w.members[chan] else {}) + {id}])
  }

  function ForgetConnection(w: World, chan: nat, id: nat): World {
    if chan in w.members then w.(members := w.members[chan := w.members[chan] - {id}]) else w
  }

  // Removing by ID goes through the reverse entry to find the key.
  function ForgetThing(w: World, id: nat): World {
    if id in w.keyOf then w.(idOf := w.idOf - {w.keyOf[id]}, keyOf := w.keyOf - {id}) else w
  }

  // ----- the operations

  // `CreateThings` gives every thing the next identifier and, if it has none, a key of its own.
  function Stamp(batch: seq<Thing>, owner: string, next: nat): (seq<Thing>, nat) {
    if batch == [] then ([], next)
    else
      var keyless := batch[0].key == Chosen("");
      var first := Thing(next, owner, if keyless then Issued(next + 1) else batch[0].key);
      var (rest, n) := Stamp(batch[1..], owner, next + (if keyless then 2 else 1));
      ([first] + rest, n)
  }

  lemma StampFirst(batch: seq<Thing>, owner: string, next: nat)
    requires batch != []
    ensures var keyless := batch[0].key == Chosen("");
            var first := Thing(next, owner, if keyless then Issued(next + 1) else batch[0].key);
            var rest := Stamp(batch[1..], owner, next + (if keyless then 2 else 1));
            Stamp(batch, owner, next) == ([first] + rest.0, rest.1)
  {
  }

  // What is stamped when the provider gives `calls` identifiers and then fails: the batch, the next identifier and
  // whether it sufficed. The thing in hand is left with an empty identifier, or with an empty key.
  datatype Stamped = Stamped(batch: seq<Thing>, next: nat, ok: bool)

  function Stamping(batch: seq<Thing>, owner: string, next: nat, calls: nat): Stamped {
    if batch == [] then Stamped([], next, true)
    else if calls == 0 then Stamped([batch[0].(id := NO_ID)] + batch[1..], next, false)
    else if batch[0].key == Chosen("") then
      if calls == 1 then Stamped([Thing(next, owner, Chosen(""))] + batch[1..], next + 1, false)
      else Behind([Thing(next, owner, Issued(next + 1))], Stamping(batch[1..], owner, next + 2, calls - 2))
    else Behind([Thing(next, owner, batch[0].key)], Stamping(batch[1..], owner, next + 1, calls - 1))
  }

  // Some things in front that are stamped already.
  function Behind(done: seq<Thing>, s: Stamped): Stamped {
    s.(batch := done + s.batch)
  }

  lemma BehindNothing(s: Stamped)
    ensures Behind([], s) == s
  {
    assert [] + s.batch == s.batch;
  }

  lemma BehindBoth(a: seq<Thing>, b: seq<Thing>, s: Stamped)
    ensures Behind(a, Behind(b, s)) == Behind(a + b, s)
  {
    assert a + (b + s.batch) == (a + b) + s.batch;
  }

  lemma StampingNone(done: seq<Thing>, owner: string, next: nat, calls: nat)
    ensures Behind(done, Stamping([], owner, next, calls)) == Stamped(done, next, true)
  {
    assert done + [] == done;
  }

  // The first thing behind what is done: as far as the provider gets with it.
  lemma StampingFirst(done: seq<Thing>, batch: seq<Thing>, owner: string, next: nat, calls: nat)
    requires batch != []
    ensures var keyless, s := batch[0].key == Chosen(""), Behind(done, Stamping(batch, owner, next, calls));
            if calls == 0 then s == Stamped(done + [batch[0].(id := NO_ID)] + batch[1..], next, false)
            else if keyless && calls == 1 then
              s == Stamped(done + [Thing(next, owner, Chosen(""))] + batch[1..], next + 1, false)
            else
              var taken := if keyless then 2 else 1;
              var first := Thing(next, owner, if keyless then Issued(next + 1) else batch[0].key);
              s == Behind(done + [first], Stamping(batch[1..], owner, next + taken, calls - taken))
  {
    var keyless := batch[0].key == Chosen("");
    if calls == 0 {
      assert done + ([batch[0].(id := NO_ID)] + batch[1..]) == done + [batch[0].(id := NO_ID)] + batch[1..];
    } else if keyless && calls == 1 {
      var half := Thing(next, owner, Chosen(""));
      assert done + ([half] + batch[1..]) == done + [half] + batch[1..];
    } else {
      var taken := if keyless then 2 else 1;
      var first := Thing(next, owner, if keyless then Issued(next + 1) else batch[0].key);
      BehindBoth(done, [first], Stamping(batch[1..], owner, next + taken, calls - taken));
    }
  }

  // The identifiers a batch takes.
  function Needed(batch: seq<Thing>): nat {
    if batch == [] then 0 else (if batch[0].key == Chosen("") then 2 else 1) + Needed(batch[1..])
  }

  // The provider suffices exactly if it gives as many, and then every thing is stamped.
  lemma {:induction false} StampingIff(batch: seq<Thing>, owner: string, next: nat, calls: nat)
    ensures Stamping(batch, owner, next, calls).ok <==> calls >= Needed(batch)
    ensures var s := Stamping(batch, owner, next, calls); s.ok ==> (s.batch, s.next) == Stamp(batch, owner, next)
    decreases |batch|
  {
    if batch != [] && calls > 0 {
      if batch[0].key != Chosen("") {
        StampingIff(batch[1..], owner, next + 1, calls - 1);
      } else if calls > 1 {
        StampingIff(batch[1..], owner, next + 2, calls - 2);
      }
    }
  }

  function ThingsCreated(w: World, owner: string, batch: seq<Thing>): World {
    var (stamped, next) := Stamp(batch, owner, w.next);
    match Insert(w.things, stamped)
    case None => w.(next := next)
    case Some(things) => w.(things := things, next := next)
  }

  // `Save` of `n` channels with the identifiers from `first` on; fresh rows never conflict.
  function WithChannels(channels: map<nat, string>, first: nat, n: nat, owner: string): (r: map<nat, string>)
    ensures forall c :: c in r <==> c in channels || first <= c < first + n
    ensures forall c :: c in r ==> r[c] == if first <= c < first + n then owner else channels[c]
  {
    if n == 0 then channels else WithChannels(channels, first, n - 1, owner)[first + n - 1 := owner]
  }

  // `CreateChannels` gives every channel the next identifier.
  function ChannelsCreated(w: World, owner: string, n: nat): World {
    w.(channels := WithChannels(w.channels, w.next, n, owner), next := w.next + n)
  }

  function Connected(w: World, owner: string, chans: seq<nat>, things: seq<nat>): World {
    match Link(w, owner, Pairs(chans, things))
    case NotLinked(_) => w
    case Linked(connections) => w.(connections := connections)
  }

  // The removals below stop at the cache when `forgets` is false: it could not be told.
  function Disconnected(w: World, owner: string, chan: nat, id: nat, forgets: bool): World {
    if !forgets then w
    else
      var w' := ForgetConnection(w, chan, id);
      if (chan, id) in w.connections && chan in w.channels && w.channels[chan] == owner
      then w'.(connections := w.connections - {(chan, id)}) else w'
  }

  function ThingRemoved(w: World, owner: string, id: nat, forgets: bool): World {
    if !forgets then w
    else
      var w' := ForgetThing(w, id);
      if id in w.things && w.things[id].owner == owner
      then w'.(things := w.things - {id}, connections := set p | p in w.connections && p.1 != id) else w'
  }

  function ChannelRemoved(w: World, owner: string, chan: nat, forgets: bool): World {
    if !forgets then w
    else
      var w' := w.(members := w.members - {chan});
      if chan in w.channels && w.channels[chan] == owner
      then w'.(channels := w.channels - {chan}, connections := set p | p in w.connections && p.0 != chan) else w'
  }

  // `hasThing`, the fast path: both caches must know.
  function FastPath(w: World, chan: nat, key: Key): Option<nat> {
    if key in w.idOf && Cached(w, chan, w.idOf[key]) then Some(w.idOf[key]) else None
  }

  ghost function AccessByKey(w: World, chan: nat, key: Key, cache: Caching): (World, Answer) {
    if cache.answers && FastPath(w, chan, key).Some? then (w, Granted(FastPath(w, chan, key).value))
    else
      match HasThing(w, chan, key)
      case Refused(why) => (w, Refused(why))
      case Granted(id) =>
        var w' := CacheThing(w, key, id, cache.saves);
        if !cache.saves.Saved? || !cache.links then (w', Refused(CacheFailed))
        else (CacheConnection(w', chan, id), Granted(id))
  }

  function AccessByID(w: World, chan: nat, id: nat, cache: Caching): (World, Answer) {
    if cache.answers && Cached(w, chan, id) then (w, Granted(id))
    else if !HasThingByID(w, chan, id) then (w, Refused(NotConnected))
    else if !cache.links then (w, Refused(CacheFailed))
    else (CacheConnection(w, chan, id), Granted(id))
  }

  ghost function Identified(w: World, key: Key, cache: Caching): (World, Answer) {
    if cache.answers && key in w.idOf then (w, Granted(w.idOf[key]))
    else
      match ByKey(w, key)
      case Refused(why) => (w, Refused(why))
      case Granted(id) =>
        (CacheThing(w, key, id, cache.saves), if cache.saves.Saved? then Granted(id) else Refused(CacheFailed))
  }

  // `UpdateKey` does not touch the thing cache.
  function KeyUpdated(w: World, owner: string, id: nat, key: Key): World {
    if id !in w.things || w.things[id].owner != owner then w
    else if KeyTaken(w.things - {id}, key) then w
    else w.(things := w.things[id := w.things[id].(key := key)])
  }

  // ----- the service

  class ThingsService {
    var things: map<nat, Thing>
    var channels: map<nat, string>
    var connections: set<(nat, nat)>
    var idOf: map<Key, nat>
    var keyOf: map<nat, Key>
    var members: map<nat, set<nat>>
    var next: nat

    constructor ()
      ensures Value() == EMPTY
    {
      things, channels, connections := map[], map[], {};
      idOf, keyOf, members, next := map[], map[], map[], 1;
    }

    function Value(): World
      reads this
    {
      World(things, channels, connections, idOf, keyOf, members, next)
    }

    // `owner` is the answer of the auth service. The batch is stamped in place, then saved. The identifier
    // provider fails after `calls` identifiers.
    method CreateThings(owner: Option<string>, batch: array<Thing>, calls: nat) returns (err: Option<Failure>)
      modifies this, batch
      ensures owner.None? ==> Value() == old(Value()) && batch[..] == old(batch[..]) && err == Some(Unauthorized)
      ensures owner.Some? ==> batch[..] == Stamping(old(batch[..]), owner.value, old(next), calls).batch
      ensures owner.Some? && calls < Needed(old(batch[..])) ==>
                && Value() == old(Value()).(next := Stamping(old(batch[..]), owner.value, old(next), calls).next)
                && err == Some(NoIdentifier)
      ensures owner.Some? && calls >= Needed(old(batch[..])) ==>
                && Value() == ThingsCreated(old(Value()), owner.value, old(batch[..]))
                && err == if Insert(old(things), batch[..]).Some? then None else Some(Conflict)
    {
      if owner.None? {
        return Some(Unauthorized);
      }
      hide Insert, Stamp, Stamping, Needed;
      StampingIff(batch[..], owner.value, next, calls);
      var ok := StampBatch(owner.value, batch, calls);
      if !ok {
        return Some(NoIdentifier);
      }
      var saved := Insert(things, batch[..]);
      if saved.None? {
        return Some(Conflict);
      }
      things := saved.value;
      return None;
    }

    // The loop that writes identifiers, owners and missing keys into the batch.
    method StampBatch(owner: string, batch: array<Thing>, calls: nat) returns (ok: bool)
      modifies this`next, batch
      ensures Stamped(batch[..], next, ok) == Stamping(old(batch[..]), owner, old(next), calls)
    {
      hide Stamping, Behind;
      var left := calls;
      ghost var input, done := batch[..], [];
      BehindNothing(Stamping(input, owner, next, left));
      assert input[0..] == input;
      for i := 0 to batch.Length
        invariant |done| == i
        invariant forall j :: 0 <= j < i ==> batch[j] == done[j]
        invariant forall j :: i <= j < batch.Length ==> batch[j] == input[j]
        invariant Stamping(input, owner, old(next), calls) == Behind(done, Stamping(input[i..], owner, next, left))
      {
        StampingFirst(done, input[i..], owner, next, left);
        assert input[i..][1..] == input[i + 1..] && input[i..][0] == batch[i];
        ok, left := StampOne(owner, batch, i, left);
        if !ok {
          assert batch[..] == done + [batch[i]] + input[i + 1..];
          return;
        }
        done := done + [batch[i]];
      }
      StampingNone(done, owner, next, left);
      assert input[batch.Length..] == [] && batch[..] == done;
      return true;
    }

    // Its body.
    method StampOne(owner: string, batch: array<Thing>, i: nat, calls: nat) returns (ok: bool, left: nat)
      requires i < batch.Length
      modifies this`next, batch
      ensures forall j :: 0 <= j < batch.Length && j != i ==> batch[j] == old(batch[j])
      ensures var keyless := old(batch[i]).key == Chosen("");
              if calls == 0 then !ok && batch[i] == old(batch[i]).(id := NO_ID) && next == old(next)
              else if keyless && calls == 1 then
                !ok && batch[i] == Thing(old(next), owner, Chosen("")) && next == old(next) + 1
              else
                var taken := if keyless then 2 else 1;
                && ok && left == calls - taken && next == old(next) + taken
                && batch[i] == Thing(old(next), owner, if keyless then Issued(old(next) + 1) else old(batch[i]).key)
    {
      ok, left := false, calls;
      if left == 0 {
        batch[i] := batch[i].(id := NO_ID);
        return;
      }
      batch[i] := batch[i].(id := next);
      next, left := next + 1, left - 1;
      batch[i] := batch[i].(owner := owner);
      if batch[i].key == Chosen("") {
        if left == 0 {
          return;
        }
        batch[i] := batch[i].(key := Issued(next));
        next, left := next + 1, left - 1;
      }
      ok := true;
    }

    method CreateChannels(owner: Option<string>, batch: array<Channel>, calls: nat) returns (err: Option<Failure>)
      modifies this, batch
      ensures owner.None? ==> Value() == old(Value()) && batch[..] == old(batch[..]) && err == Some(Unauthorized)
      ensures owner.Some? ==>
                && (forall i :: 0 <= i < batch.Length ==>
                      batch[i] == if i < calls then Channel(old(next) + i, owner.value)
                                  else if i == calls then old(batch[i]).(id := NO_ID)
                                  else old(batch[i]))
                && (if calls < batch.Length then
                      Value() == old(Value()).(next := old(next) + calls) && err == Some(NoIdentifier)
                    else
                      Value() == ChannelsCreated(old(Value()), owner.value, batch.Length) && err == None)
    {
      if owner.None? {
        return Some(Unauthorized);
      }
      hide WithChannels;
      var first := next;
      for i := 0 to batch.Length
        invariant i <= calls
        invariant Value() == old(Value()).(next := first + i)
        invariant forall j :: 0 <= j < i ==> batch[j] == Channel(first + j, owner.value)
        invariant forall j :: i <= j < batch.Length ==> batch[j] == old(batch[j])
      {
        if i == calls {
          batch[i] := batch[i].(id := NO_ID);
          return Some(NoIdentifier);
        }
        batch[i] := Channel(next, owner.value);
        next := next + 1;
      }
      channels := WithChannels(channels, first, batch.Length, owner.value);
      return None;
    }

    method Connect(owner: Option<string>, chans: seq<nat>, ths: seq<nat>) returns (err: Option<Failure>)
      modifies this
      ensures owner.None? ==> Value() == old(Value()) && err == Some(Unauthorized)
      ensures owner.Some? ==>
                && Value() == Connected(old(Value()), owner.value, chans, ths)
                && err == match Link(old(Value()), owner.value, Pairs(chans, ths))
                          case NotLinked(why) => Some(why)
                          case Linked(_) => None
    {
      if owner.None? {
        return Some(Unauthorized);
      }
      var linked := Link(Value(), owner.value, Pairs(chans, ths));
      if linked.NotLinked? {
        return Some(linked.why);
      }
      connections := linked.connections;
      return None;
    }

    method Disconnect(owner: Option<string>, chan: nat, id: nat, forgets: bool) returns (err: Option<Failure>)
      modifies this
      ensures owner.None? ==> Value() == old(Value()) && err == Some(Unauthorized)
      ensures owner.Some? ==>
                && Value() == Disconnected(old(Value()), owner.value, chan, id, forgets)
                && err == (if !forgets then Some(CacheFailed)
                           else if (chan, id) in old(connections) && chan in channels && channels[chan] == owner.value
                           then None else Some(NotFound))
    {
      if owner.None? {
        return Some(Unauthorized);
      }
      if !forgets {
        return Some(CacheFailed);
      }
      if chan in members {
        members := members[chan := members[chan] - {id}];
      }
      if (chan, id) !in connections || chan !in channels || channels[chan] != owner.value {
        return Some(NotFound);
      }
      connections := connections - {(chan, id)};
      return None;
    }

    method RemoveThing(owner: Option<string>, id: nat, forgets: bool) returns (err: Option<Failure>)
      modifies this
      ensures owner.None? ==> Value() == old(Value()) && err == Some(Unauthorized)
      ensures owner.Some? ==>
                && Value() == ThingRemoved(old(Value()), owner.value, id, forgets)
                && err == if forgets then None else Some(CacheFailed)
    {
      if owner.None? {
        return Some(Unauthorized);
      }
      if !forgets {
        return Some(CacheFailed);
      }
      if id in keyOf {
        idOf := idOf - {keyOf[id]};
        keyOf := keyOf - {id};
      }
      if id in things && things[id].owner == owner.value {
        things := things - {id};
        connections := set p | p in connections && p.1 != id;
      }
      return None;
    }

    method RemoveChannel(owner: Option<string>, chan: nat, forgets: bool) returns (err: Option<Failure>)
      modifies this
      ensures owner.None? ==> Value() == old(Value()) && err == Some(Unauthorized)
      ensures owner.Some? ==>
                && Value() == ChannelRemoved(old(Value()), owner.value, chan, forgets)
                && err == if forgets then None else Some(CacheFailed)
    {
      if owner.None? {
        return Some(Unauthorized);
      }
      if !forgets {
        return Some(CacheFailed);
      }
      members := members - {chan};
      if chan in channels && channels[chan] == owner.value {
        channels := channels - {chan};
        connections := set p | p in connections && p.0 != chan;
      }
      return None;
    }

    method UpdateKey(owner: Option<string>, id: nat, key: Key) returns (err: Option<Failure>)
      modifies this
      ensures owner.None? ==> Value() == old(Value()) && err == Some(Unauthorized)
      ensures owner.Some? ==>
                && Value() == KeyUpdated(old(Value()), owner.value, id, key)
                && err == (if id !in old(things) || old(things)[id].owner != owner.value then Some(NotFound)
                           else if KeyTaken(old(things) - {id}, key) then Some(Conflict)
                           else None)
    {
      if owner.None? {
        return Some(Unauthorized);
      }
      if id !in things || things[id].owner != owner.value {
        return Some(NotFound);
      }
      if KeyTaken(things - {id}, key) {
        return Some(Conflict);
      }
      things := things[id := things[id].(key := key)];
      return None;
    }

    // `RetrieveByKey` over the table.
    method Lookup(key: Key) returns (r: Answer)
      requires UniqueKeys(Value())
      ensures r == ByKey(Value(), key)
    {
      if id :| id in things && things[id].key == key {
        assert Holds(Value(), key, id);
        return Granted(id);
      }
      return Refused(NotFound);
    }

    // `thingCache.Save`: two writes, the first by key.
    method SaveKey(key: Key, id: nat, saves: Saving) returns (ok: bool)
      modifies this
      ensures Value() == CacheThing(old(Value()), key, id, saves) && ok == saves.Saved?
    {
      if saves.Unsaved? {
        return false;
      }
      idOf := idOf[key := id];
      if saves.HalfSaved? {
        return false;
      }
      keyOf := keyOf[id := key];
      return true;
    }

    method CanAccessByKey(chan: nat, key: Key, cache: Caching) returns (r: Answer)
      requires UniqueKeys(Value())
      modifies this
      ensures (Value(), r) == AccessByKey(old(Value()), chan, key, cache)
    {
      if cache.answers && key in idOf && chan in members && idOf[key] in members[chan] {
        return Granted(idOf[key]);
      }
      r := Lookup(key);
      if r.Refused? {
        return Refused(KeyUnknown);
      }
      if (chan, r.id) !in connections {
        return Refused(NotConnected);
      }
      var saved := SaveKey(key, r.id, cache.saves);
      if !saved || !cache.links {
        return Refused(CacheFailed);
      }
      members := members[chan := (if chan in members then members[chan] else {}) + {r.id}];
    }

    method CanAccessByID(chan: nat, id: nat, cache: Caching) returns (r: Answer)
      modifies this
      ensures (Value(), r) == AccessByID(old(Value()), chan, id, cache)
    {
      if cache.answers && chan in members && id in members[chan] {
        return Granted(id);
      }
      if (chan, id) !in connections {
        return Refused(NotConnected);
      }
      if !cache.links {
        return Refused(CacheFailed);
      }
      members := members[chan := (if chan in members then members[chan] else {}) + {id}];
      return Granted(id);
    }

    method Identify(key: Key, cache: Caching) returns (r: Answer)
      requires UniqueKeys(Value())
      modifies this
      ensures (Value(), r) == Identified(old(Value()), key, cache)
    {
      if cache.answers && key in idOf {
        return Granted(idOf[key]);
      }
      r := Lookup(key);
      if r.Granted? {
        var saved := SaveKey(key, r.id, cache.saves);
        if !saved {
          return Refused(CacheFailed);
        }
      }
    }
  }

  // The key column is unique.
  ghost predicate UniqueKeys(w: World) {
    forall a, b :: a in w.things && b in w.things && w.things[a].key == w.things[b].key ==> a == b
  }
}
