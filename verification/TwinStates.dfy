// Twin definitions and the state history kept for each twin.
module TwinStates {
  import opened Wrappers

  // ----- values

  datatype Attribute = Attribute(name: string, channel: string, subtopic: string, persistState: bool)

  datatype Definition = Definition(id: int, created: int, attributes: seq<Attribute>, delta: int)

  datatype Twin = Twin(
    owner: string,
    id: string,
    name: string,
    created: int,
    updated: int,
    revision: int,
    definitions: seq<Definition>,
    metadata: map<string, string>)

  datatype Val = Float(f: real) | Text(s: string) | Data(d: string) | Boolean(b: bool) | Sum(sum: real) | Null

  // A SenML record; its time is base time plus time, in nanoseconds, 0 meaning none was given.
  datatype Rec = Rec(
    nano: int,
    value: Option<real>,
    stringValue: Option<string>,
    dataValue: Option<string>,
    boolValue: Option<bool>,
    sum: Option<real>)

  datatype Msg = Msg(channel: string, subtopic: string)

  // A stored state; the payload of the zero state is nil.
  datatype Snapshot =
    Snapshot(twinID: string, id: int, definition: int, created: int, payload: Option<map<string, Val>>)

  // `UnixNano` of the zero `time.Time`, which does not fit an int64 and wraps.
  const ZERO_TIME: int := -6795364578871345152
  const NO_STATE := Snapshot("", 0, 0, ZERO_TIME, None)
  const MILLISEC: int := 1_000_000
  const SUBTOPIC_WILDCARD := ">"

  datatype Action = Noop | Update | Save

  function FindValue(rec: Rec): Val {
    if rec.value.Some? then Float(rec.value.value)
    else if rec.stringValue.Some? then Text(rec.stringValue.value)
    else if rec.dataValue.Some? then Data(rec.dataValue.value)
    else if rec.boolValue.Some? then Boolean(rec.boolValue.value)
    else if rec.sum.Some? then Sum(rec.sum.value)
    else Null
  }

  // ----- what one record does to the state in hand

  predicate Matches(attr: Attribute, msg: Msg) {
    attr.persistState && attr.channel == msg.channel
    && (attr.subtopic == SUBTOPIC_WILDCARD || attr.subtopic == msg.subtopic)
  }

  // The position of the first attribute that the message feeds.
  function FirstMatch(attrs: seq<Attribute>, msg: Msg): (r: Option<nat>)
    ensures r.Some? ==> r.value < |attrs| && Matches(attrs[r.value], msg)
    ensures r.Some? ==> forall j :: 0 <= j < r.value ==> !Matches(attrs[j], msg)
    ensures r.None? ==> forall j :: 0 <= j < |attrs| ==> !Matches(attrs[j], msg)
  {
    if attrs == [] then None
    else if Matches(attrs[0], msg) then Some(0)
    else match FirstMatch(attrs[1..], msg) case None => None case Some(i) => Some(i + 1)
  }

  // A payload key is kept when the first attribute of that name is persisted.
  predicate Kept(attrs: seq<Attribute>, key: string) {
    attrs != [] && (if attrs[0].name == key then attrs[0].persistState else Kept(attrs[1..], key))
  }

  function Retained(payload: map<string, Val>, attrs: seq<Attribute>): map<string, Val> {
    map k | k in payload && Kept(attrs, k) :: payload[k]
  }

  function Abs(x: int): nat {
    if x < 0 then -x else x
  }

  // Whether a record starts a new state: it has no time or is too far from the state in hand.
  predicate Opens(created: int, def: Definition, rec: Rec) {
    rec.nano == 0 || Abs(created - rec.nano) > def.delta
  }

  function CurrentDefinition(tw: Twin): Definition
    requires tw.definitions != []
  {
    tw.definitions[|tw.definitions| - 1]
  }

  function Prepare(st: Snapshot, tw: Twin, rec: Rec, msg: Msg, now: int): (Snapshot, Action)
    requires tw.definitions != []
  {
    var def := CurrentDefinition(tw);
    var id := if st.payload.None? then -1 else st.id;
    var payload := if st.payload.None? then map[] else Retained(st.payload.value, def.attributes);
    match FirstMatch(def.attributes, msg)
    case None => (Snapshot(tw.id, id, def.id, st.created, Some(payload)), Noop)
    case Some(i) =>
      var payload' := Some(payload[def.attributes[i].name := FindValue(rec)]);
      if Opens(st.created, def, rec) then
        (Snapshot(tw.id, id + 1, def.id, if rec.nano != 0 then rec.nano else now, payload'), Save)
      else
        (Snapshot(tw.id, id, def.id, st.created, payload'), Update)
  }

  // ----- the store: the states of one twin in order of insertion

  function Last(history: seq<Snapshot>): Snapshot {
    if history == [] then NO_STATE else history[|history| - 1]
  }

  // `Update` sets the first document with that ID and does nothing when there is none.
  function Amend(history: seq<Snapshot>, st: Snapshot): seq<Snapshot> {
    if history == [] then []
    else if history[0].id == st.id then [st] + history[1..]
    else [history[0]] + Amend(history[1..], st)
  }

  // A record with the clock reading and the answer of the store that it meets.
  datatype Input = Input(rec: Rec, now: int, ok: bool)

  // What a twin meets of a message: the decoded records, None when the payload is not JSON, and whether the
  // store answers when asked for the last state.
  datatype Attempt = Attempt(inputs: Option<seq<Input>>, retrieved: bool)

  datatype Delivered = Delivered(history: seq<Snapshot>, failed: bool)

  // The loop of `saveState`: what a message leaves in the store, and whether a write was refused.
  function Deliver(history: seq<Snapshot>, st: Snapshot, tw: Twin, msg: Msg, inputs: seq<Input>): Delivered
    requires tw.definitions != []
    decreases |inputs|
  {
    if inputs == [] then Delivered(history, false)
    else
      var (st', action) := Prepare(st, tw, inputs[0].rec, msg, inputs[0].now);
      if action.Noop? then Delivered(history, false)
      else if !inputs[0].ok then Delivered(history, true)
      else Deliver(if action.Save? then history + [st'] else Amend(history, st'), st', tw, msg, inputs[1..])
  }

  lemma DeliverNone(history: seq<Snapshot>, st: Snapshot, tw: Twin, msg: Msg)
    requires tw.definitions != []
    ensures Deliver(history, st, tw, msg, []) == Delivered(history, false)
  {
  }

  lemma DeliverFirst(history: seq<Snapshot>, st: Snapshot, tw: Twin, msg: Msg, inputs: seq<Input>)
    requires tw.definitions != [] && inputs != []
    ensures var (st', action) := Prepare(st, tw, inputs[0].rec, msg, inputs[0].now);
            Deliver(history, st, tw, msg, inputs)
            == if action.Noop? then Delivered(history, false)
               else if !inputs[0].ok then Delivered(history, true)
               else Deliver(if action.Save? then history + [st'] else Amend(history, st'), st', tw, msg, inputs[1..])
  {
  }

  // ----- definitions

  function NewTwin(twin: Twin, id: string, owner: string, def: Definition, now: int, defNow: int): Twin {
    var def' := def.(delta := if def.delta == 0 then MILLISEC else def.delta, created := defNow, id := 0);
    twin.(id := id, owner := owner, created := now, updated := now,
          definitions := twin.definitions + [def'], revision := 0)
  }

  // A change that names nothing new is refused.
  function Revise(tw: Twin, change: Twin, def: Definition, defNow: int, now: int): Option<Twin>
    requires tw.definitions != []
  {
    if change.name == "" && def.attributes == [] && change.metadata == map[] then None
    else
      var def' := def.(created := defNow, id := CurrentDefinition(tw).id + 1);
      Some(tw.(
        name := if change.name != "" then change.name else tw.name,
        definitions := if def.attributes != [] then tw.definitions + [def'] else tw.definitions,
        metadata := if change.metadata != map[] then change.metadata else tw.metadata,
        updated := now,
        revision := tw.revision + 1))
  }

  // ----- the service

  datatype Failure = Unauthorized | NoIdentifier | NotFound | Malformed | StoreFailure | CacheFailure

  // The state a message loop works on, changed in place by `prepareState`.
  class State {
    var twinID: string
    var id: int
    var definition: int
    var created: int
    var payload: Option<map<string, Val>>

    constructor (s: Snapshot)
      ensures Value() == s
    {
      twinID, id, definition, created, payload := s.twinID, s.id, s.definition, s.created, s.payload;
    }

    function Value(): Snapshot
      reads this
    {
      Snapshot(twinID, id, definition, created, payload)
    }
  }

  // `findAttribute`: -1 when there is no attribute of that name.
  method FindAttribute(name: string, attrs: seq<Attribute>) returns (idx: int)
    ensures -1 <= idx < |attrs|
    ensures 0 <= idx ==> attrs[idx].name == name
    ensures forall j :: 0 <= j < (if idx < 0 then |attrs| else idx) ==> attrs[j].name != name
    ensures Kept(attrs, name) <==> 0 <= idx && attrs[idx].persistState
  {
    for i := 0 to |attrs|
      invariant forall j :: 0 <= j < i ==> attrs[j].name != name
      invariant Kept(attrs, name) <==> Kept(attrs[i..], name)
    {
      if attrs[i].name == name {
        return i;
      }
    }
    return -1;
  }

  // The deletion loop over the payload, in whatever order the map is visited.
  method Prune(st: State, attrs: seq<Attribute>)
    requires st.payload.Some?
    modifies st`payload
    ensures st.payload == Some(Retained(old(st.payload.value), attrs))
  {
    var keys := st.payload.value.Keys;
    ghost var before := st.payload.value;
    while keys != {}
      invariant st.payload.Some? && keys <= before.Keys
      invariant st.payload.value == map k | k in before && (k in keys || Kept(attrs, k)) :: before[k]
      decreases |keys|
    {
      var k :| k in keys;
      var idx := FindAttribute(k, attrs);
      if idx < 0 || !attrs[idx].persistState {
        st.payload := Some(st.payload.value - {k});
      }
      keys := keys - {k};
    }
    assert st.payload.value == Retained(before, attrs);
  }

  method PrepareState(st: State, tw: Twin, rec: Rec, msg: Msg, now: int) returns (action: Action)
    requires tw.definitions != []
    modifies st
    ensures (st.Value(), action) == Prepare(old(st.Value()), tw, rec, msg, now)
  {
    var def := tw.definitions[|tw.definitions| - 1];
    st.twinID := tw.id;
    st.definition := def.id;
    if st.payload.None? {
      st.payload := Some(map[]);
      st.id := -1;
    } else {
      Prune(st, def.attributes);
    }
    action := Noop;
    ghost var base := st.Value();
    for i := 0 to |def.attributes|
      invariant action == Noop && st.Value() == base
      invariant forall j :: 0 <= j < i ==> !Matches(def.attributes[j], msg)
    {
      var attr := def.attributes[i];
      if !attr.persistState {
        continue;
      }
      if attr.channel == msg.channel && (attr.subtopic == SUBTOPIC_WILDCARD || attr.subtopic == msg.subtopic) {
        action := Update;
        if rec.nano == 0 || Abs(st.created - rec.nano) > def.delta {
          action := Save;
          st.id := st.id + 1;
          st.created := now;
          if rec.nano != 0 {
            st.created := rec.nano;
          }
        }
        st.payload := Some(st.payload.value[attr.name := FindValue(rec)]);
        assert FirstMatch(def.attributes, msg) == Some(i);
        break;
      }
    }
  }

  class TwinsService {
    var twins: map<string, Twin>
    var states: map<string, seq<Snapshot>>

    // Every stored twin has a definition to check its messages against.
    ghost predicate Valid()
      reads this
    {
      forall id :: id in twins ==> twins[id].definitions != [] && twins[id].id == id
    }

    constructor ()
      ensures Valid() && twins == map[] && states == map[]
    {
      twins, states := map[], map[];
    }

    // `owner` is the answer of the auth service, `id` that of the identifier provider; `ok` and `cached` are the
    // answers of the store and of the cache, which is written after it.
    method AddTwin(owner: Option<string>, id: Option<string>, twin: Twin, def: Definition, now: int, defNow: int,
                   ok: bool, cached: bool)
      returns (err: Option<Failure>)
      requires Valid()
      modifies this`twins
      ensures Valid()
      ensures err == if owner.None? then Some(Unauthorized)
                     else if id.None? then Some(NoIdentifier)
                     else if !ok then Some(StoreFailure)
                     else if !cached then Some(CacheFailure)
                     else None
      ensures twins == if owner.Some? && id.Some? && ok
                       then old(twins)[id.value := NewTwin(twin, id.value, owner.value, def, now, defNow)]
                       else old(twins)
    {
      if owner.None? {
        return Some(Unauthorized);
      }
      if id.None? {
        return Some(NoIdentifier);
      }
      var tw := twin.(id := id.value);
      tw := tw.(owner := owner.value);
      tw := tw.(created := now, updated := now);
      var d := def;
      if d.delta == 0 {
        d := d.(delta := MILLISEC);
      }
      d := d.(created := defNow);
      d := d.(id := 0);
      tw := tw.(definitions := tw.definitions + [d]);
      tw := tw.(revision := 0);
      if !ok {
        return Some(StoreFailure);
      }
      twins := twins[id.value := tw];
      return if cached then None else Some(CacheFailure);
    }

    method UpdateTwin(authorized: bool, change: Twin, def: Definition, defNow: int, now: int, ok: bool, cached: bool)
      returns (err: Option<Failure>)
      requires Valid()
      modifies this`twins
      ensures Valid()
      ensures var revised :=
                if change.id in old(twins) then Revise(old(twins)[change.id], change, def, defNow, now) else None;
              && err == (if !authorized then Some(Unauthorized)
                         else if change.id !in old(twins) then Some(NotFound)
                         else if revised.None? then Some(Malformed)
                         else if !ok then Some(StoreFailure)
                         else if !cached then Some(CacheFailure)
                         else None)
              && twins == if authorized && revised.Some? && ok
                          then old(twins)[change.id := revised.value] else old(twins)
    {
      if !authorized {
        return Some(Unauthorized);
      }
      if change.id !in twins {
        return Some(NotFound);
      }
      var tw := twins[change.id];
      var revision := false;
      if change.name != "" {
        revision := true;
        tw := tw.(name := change.name);
      }
      if |def.attributes| > 0 {
        revision := true;
        var d := def.(created := defNow);
        d := d.(id := tw.definitions[|tw.definitions| - 1].id + 1);
        tw := tw.(definitions := tw.definitions + [d]);
      }
      if |change.metadata| > 0 {
        revision := true;
        tw := tw.(metadata := change.metadata);
      }
      if !revision {
        return Some(Malformed);
      }
      tw := tw.(updated := now);
      tw := tw.(revision := tw.revision + 1);
      if !ok {
        return Some(StoreFailure);
      }
      twins := twins[change.id := tw];
      return if cached then None else Some(CacheFailure);
    }

    // `saveState`
    method SaveState(msg: Msg, id: string, attempt: Attempt) returns (err: Option<Failure>)
      requires Valid()
      modifies this`states
      ensures Valid()
      ensures Saved(states, err) == SaveOne(old(states), twins, msg, id, attempt)
    {
      hide Prepare, Amend, Deliver;
      if id !in twins {
        return Some(NotFound);
      }
      if attempt.inputs.None? {
        return Some(Malformed);
      }
      if !attempt.retrieved {
        return Some(StoreFailure);
      }
      var tw := twins[id];
      var history := History(states, id);
      states := states[id := history];
      var st := new State(Last(history));
      var inputs := attempt.inputs.value;
      ghost var target := Deliver(history, Last(history), tw, msg, inputs);
      for k := 0 to |inputs|
        invariant states == old(states)[id := history]
        invariant target == Deliver(history, st.Value(), tw, msg, inputs[k..])
      {
        var input := inputs[k];
        assert inputs[k..][1..] == inputs[k + 1..];
        DeliverFirst(history, st.Value(), tw, msg, inputs[k..]);
        var action := PrepareState(st, tw, input.rec, msg, input.now);
        if action == Noop {
          return None;
        }
        if !input.ok {
          return Some(StoreFailure);
        }
        history := if action == Update then Amend(history, st.Value()) else history + [st.Value()];
        states := states[id := history];
      }
      DeliverNone(history, st.Value(), tw, msg);
      return None;
    }

    // `SaveStates`: `lookup` is what the caches and the repository answered, None when they failed;
    // attempts[j] is the message as the j-th twin meets it.
    method SaveStates(msg: Msg, lookup: Option<seq<string>>, attempts: seq<Attempt>) returns (err: Option<Failure>)
      requires Valid()
      requires lookup.Some? ==> |attempts| == |lookup.value|
      modifies this`states
      ensures Valid()
      ensures lookup.None? ==> err.Some? && states == old(states)
      ensures lookup.Some? ==> Saved(states, err) == SaveAll(old(states), twins, msg, lookup.value, attempts)
      ensures lookup.Some? ==> forall id :: id !in lookup.value ==> Untouched(old(states), states, id)
    {
      hide SaveOne, Untouched;
      if lookup.None? {
        return Some(StoreFailure);
      }
      var ids := lookup.value;
      forall id | id !in ids ensures Untouched(states, SaveAll(states, twins, msg, ids, attempts).states, id) {
        SaveAllFrame(states, twins, msg, ids, attempts, id);
      }
      for j := 0 to |ids|
        invariant SaveAll(old(states), twins, msg, ids, attempts)
               == SaveAll(states, twins, msg, ids[j..], attempts[j..])
      {
        assert ids[j..][1..] == ids[j + 1..] && attempts[j..][1..] == attempts[j + 1..];
        err := SaveState(msg, ids[j], attempts[j]);
        if err.Some? {
          return;
        }
      }
      err := None;
    }
  }

  // ----- the two save operations as functions of the store

  datatype Saved = Saved(states: map<string, seq<Snapshot>>, err: Option<Failure>)

  function History(states: map<string, seq<Snapshot>>, id: string): seq<Snapshot> {
    if id in states then states[id] else []
  }

  function SaveOne(
      states: map<string, seq<Snapshot>>, twins: map<string, Twin>, msg: Msg, id: string, attempt: Attempt)
    : Saved
    requires forall i :: i in twins ==> twins[i].definitions != []
  {
    if id !in twins then Saved(states, Some(NotFound))
    else if attempt.inputs.None? then Saved(states, Some(Malformed))
    else if !attempt.retrieved then Saved(states, Some(StoreFailure))
    else
      var history := History(states, id);
      var d := Deliver(history, Last(history), twins[id], msg, attempt.inputs.value);
      Saved(states[id := d.history], if d.failed then Some(StoreFailure) else None)
  }

  // One twin after the other, stopping at the first failure.
  function SaveAll(
      states: map<string, seq<Snapshot>>, twins: map<string, Twin>, msg: Msg, ids: seq<string>, attempts: seq<Attempt>)
    : Saved
    requires forall i :: i in twins ==> twins[i].definitions != []
    requires |ids| == |attempts|
    decreases |ids|
  {
    if ids == [] then Saved(states, None)
    else
      var s := SaveOne(states, twins, msg, ids[0], attempts[0]);
      if s.err.Some? then s else SaveAll(s.states, twins, msg, ids[1..], attempts[1..])
  }

  predicate Untouched(states: map<string, seq<Snapshot>>, states': map<string, seq<Snapshot>>, id: string) {
    (id in states' <==> id in states) && (id in states ==> states'[id] == states[id])
  }

  // A twin the message was not looked up for keeps its states.
  lemma {:induction false} SaveAllFrame(
      states: map<string, seq<Snapshot>>, twins: map<string, Twin>, msg: Msg, ids: seq<string>, attempts: seq<Attempt>,
      id: string)
    requires forall i :: i in twins ==> twins[i].definitions != []
    requires |ids| == |attempts| && id !in ids
    ensures Untouched(states, SaveAll(states, twins, msg, ids, attempts).states, id)
    decreases |ids|
  {
    hide Deliver, Last;
    if ids != [] {
      SaveAllFrame(SaveOne(states, twins, msg, ids[0], attempts[0]).states, twins, msg, ids[1..], attempts[1..], id);
    }
  }
}
