// What every run of message deliveries and twin updates keeps.
module TwinProofs {
  import opened Wrappers
  import opened TwinStates

  // A record folded into a state, with the window in force when it was.
  datatype Folding = Folding(nano: int, delta: int)

  // One twin with its stored states and, for each of them, the records folded into it.
  datatype Track = Track(tw: Twin, history: seq<Snapshot>, log: seq<seq<Folding>>)

  datatype Event =
    | Message(msg: Msg, inputs: seq<Input>)
    | Change(change: Twin, def: Definition, defNow: int, now: int)

  // `Deliver`, keeping the log.
  function DeliverLogged(t: Track, st: Snapshot, msg: Msg, inputs: seq<Input>): (t': Track)
    requires t.tw.definitions != []
    ensures t'.tw == t.tw
    decreases |inputs|
  {
    if inputs == [] then t
    else
      var (st', action) := Prepare(st, t.tw, inputs[0].rec, msg, inputs[0].now);
      if action.Noop? || !inputs[0].ok then t
      else
        var folding := Folding(inputs[0].rec.nano, CurrentDefinition(t.tw).delta);
        DeliverLogged(if action.Save? then Append(t, st', folding) else Fold(t, st', folding), st', msg, inputs[1..])
  }

  function Append(t: Track, st: Snapshot, f: Folding): Track {
    t.(history := t.history + [st], log := t.log + [[f]])
  }

  // An update reaches the store only if the state it amends is there.
  function Fold(t: Track, st: Snapshot, f: Folding): Track {
    t.(history := Amend(t.history, st),
       log := if 0 <= st.id < |t.log| then t.log[st.id := t.log[st.id] + [f]] else t.log)
  }

  function Step(t: Track, e: Event): Track
    requires t.tw.definitions != []
  {
    match e
    case Message(msg, inputs) => DeliverLogged(t, Last(t.history), msg, inputs)
    case Change(change, def, defNow, now) =>
      match Revise(t.tw, change, def, defNow, now) case None => t case Some(tw) => t.(tw := tw)
  }

  // ----- the invariant

  predicate NumberedDefinitions(tw: Twin) {
    && tw.definitions != []
    && tw.revision >= |tw.definitions| - 1
    && forall i :: 0 <= i < |tw.definitions| ==> tw.definitions[i].id == i
  }

  predicate PersistedName(def: Definition, name: string) {
    exists i :: 0 <= i < |def.attributes| && def.attributes[i].name == name && def.attributes[i].persistState
  }

  predicate PayloadFits(def: Definition, payload: map<string, Val>) {
    forall k :: k in payload ==> PersistedName(def, k)
  }

  // A stored state carries its position as ID and only attributes its own definition persists.
  predicate WellFormedState(tw: Twin, history: seq<Snapshot>, i: nat)
    requires i < |history|
  {
    var st := history[i];
    && st.id == i && st.twinID == tw.id
    && 0 <= st.definition < |tw.definitions|
    && st.payload.Some? && PayloadFits(tw.definitions[st.definition], st.payload.value)
  }

  // The first record opened the state, at its own time if it had one; the others are timed and near enough.
  predicate InWindow(created: int, folds: seq<Folding>) {
    && folds != []
    && (folds[0].nano != 0 ==> created == folds[0].nano)
    && forall k :: 1 <= k < |folds| ==> folds[k].nano != 0 && Abs(created - folds[k].nano) <= folds[k].delta
  }

  predicate Inv(t: Track) {
    && NumberedDefinitions(t.tw)
    && |t.log| == |t.history|
    && (forall i :: 0 <= i < |t.history| ==> WellFormedState(t.tw, t.history, i))
    && forall i :: 0 <= i < |t.history| ==> InWindow(t.history[i].created, t.log[i])
  }

  // The state a message loop has in hand: the newest one or, before anything is stored, a blank one.
  predicate InHand(t: Track, st: Snapshot) {
    if t.history == [] then
      st.created == ZERO_TIME && (st.payload.None? || st.id == -1)
    else
      st.payload.Some? && st.id == |t.history| - 1 && st.created == Last(t.history).created
  }

  // ----- one record

  lemma {:induction false} KeptIsPersisted(def: Definition, key: string)
    requires Kept(def.attributes, key)
    ensures PersistedName(def, key)
    decreases |def.attributes|
  {
    if def.attributes[0].name != key {
      var rest := def.(attributes := def.attributes[1..]);
      KeptIsPersisted(rest, key);
      var i :| 0 <= i < |rest.attributes| && rest.attributes[i].name == key && rest.attributes[i].persistState;
      assert def.attributes[i + 1] == rest.attributes[i];
    } else {
      assert def.attributes[0].persistState;
    }
  }

  lemma PreparedPayloadFits(st: Snapshot, tw: Twin, rec: Rec, msg: Msg, now: int)
    requires tw.definitions != []
    ensures var st' := Prepare(st, tw, rec, msg, now).0;
            st'.payload.Some? && PayloadFits(CurrentDefinition(tw), st'.payload.value)
  {
    var def := CurrentDefinition(tw);
    var st' := Prepare(st, tw, rec, msg, now).0;
    forall k | k in st'.payload.value ensures PersistedName(def, k) {
      if Kept(def.attributes, k) {
        KeptIsPersisted(def, k);
      } else {
        var i := FirstMatch(def.attributes, msg).value;
        assert def.attributes[i].name == k && def.attributes[i].persistState;
      }
    }
  }

  // With IDs equal to positions, amending the newest state replaces the last element.
  lemma {:induction false} AmendLast(history: seq<Snapshot>, st: Snapshot, base: int)
    requires history != [] && st.id == base + |history| - 1
    requires forall i :: 0 <= i < |history| ==> history[i].id == base + i
    ensures Amend(history, st) == history[..|history| - 1] + [st]
    decreases |history|
  {
    if |history| > 1 {
      assert history[0].id == base;
      forall i | 0 <= i < |history| - 1 ensures history[1..][i].id == base + 1 + i {
        assert history[1..][i] == history[i + 1];
      }
      AmendLast(history[1..], st, base + 1);
      assert [history[0]] + history[1..][..|history| - 2] == history[..|history| - 1];
    }
  }

  lemma CurrentIsNewest(tw: Twin)
    requires NumberedDefinitions(tw)
    ensures var n := |tw.definitions| - 1; CurrentDefinition(tw) == tw.definitions[n] && CurrentDefinition(tw).id == n
  {
  }

  // What an amendment keeps, and why the record did not open a new state.
  lemma UpdateFacts(st: Snapshot, st': Snapshot, tw: Twin, rec: Rec, msg: Msg, now: int)
    requires tw.definitions != [] && Prepare(st, tw, rec, msg, now) == (st', Update)
    ensures st'.id == (if st.payload.None? then -1 else st.id) && st'.created == st.created
    ensures st'.twinID == tw.id && st'.definition == CurrentDefinition(tw).id
    ensures rec.nano != 0 && Abs(st.created - rec.nano) <= CurrentDefinition(tw).delta
  {
  }

  lemma SaveKeepsInv(t: Track, st: Snapshot, st': Snapshot, msg: Msg, input: Input)
    requires Inv(t) && InHand(t, st)
    requires Prepare(st, t.tw, input.rec, msg, input.now) == (st', Save)
    ensures var t' := Append(t, st', Folding(input.rec.nano, CurrentDefinition(t.tw).delta));
            Inv(t') && InHand(t', st')
  {
    var f := Folding(input.rec.nano, CurrentDefinition(t.tw).delta);
    var t' := Append(t, st', f);
    PreparedPayloadFits(st, t.tw, input.rec, msg, input.now);
    forall i | 0 <= i < |t'.history|
      ensures WellFormedState(t'.tw, t'.history, i) && InWindow(t'.history[i].created, t'.log[i])
    {
      if i < |t.history| {
        assert WellFormedState(t.tw, t.history, i);
        assert t'.history[i] == t.history[i] && t'.log[i] == t.log[i];
      }
    }
  }

  lemma UpdateKeepsInv(t: Track, st: Snapshot, st': Snapshot, msg: Msg, input: Input)
    requires Inv(t) && InHand(t, st)
    requires Prepare(st, t.tw, input.rec, msg, input.now) == (st', Update)
    ensures var t' := Fold(t, st', Folding(input.rec.nano, CurrentDefinition(t.tw).delta));
            Inv(t') && InHand(t', st') && Grown(t.history, t'.history)
  {
    hide Prepare, PayloadFits, InWindow, CurrentDefinition;
    UpdateFacts(st, st', t.tw, input.rec, msg, input.now);
    CurrentIsNewest(t.tw);
    var f := Folding(input.rec.nano, CurrentDefinition(t.tw).delta);
    var t' := Fold(t, st', f);
    if t.history != [] {
      PreparedPayloadFits(st, t.tw, input.rec, msg, input.now);
      forall i | 0 <= i < |t.history| ensures t.history[i].id == i { assert WellFormedState(t.tw, t.history, i); }
      AmendLast(t.history, st', 0);
      forall i | 0 <= i < |t'.history|
        ensures WellFormedState(t'.tw, t'.history, i) && InWindow(t'.history[i].created, t'.log[i])
      {
        if i < |t.history| - 1 {
          assert WellFormedState(t.tw, t.history, i);
          assert t'.history[i] == t.history[i] && t'.log[i] == t.log[i];
        } else {
          WindowGrows(st'.created, t.log[i], f);
        }
      }
    }
  }

  lemma WindowGrows(created: int, folds: seq<Folding>, f: Folding)
    requires InWindow(created, folds) && f.nano != 0 && Abs(created - f.nano) <= f.delta
    ensures InWindow(created, folds + [f])
  {
  }

  // ----- how a history may change

  // States are only added; of the old ones only the newest is touched, and never its ID or time.
  predicate Grown(h: seq<Snapshot>, h': seq<Snapshot>) {
    && |h| <= |h'|
    && (forall i :: 0 <= i < |h| ==> h'[i].id == h[i].id && h'[i].created == h[i].created)
    && forall i :: 0 <= i < |h| - 1 ==> h'[i] == h[i]
  }

  lemma GrownTransitive(a: seq<Snapshot>, b: seq<Snapshot>, c: seq<Snapshot>)
    requires Grown(a, b) && Grown(b, c)
    ensures Grown(a, c)
  {
  }

  lemma {:induction false} DeliverKeepsInv(t: Track, st: Snapshot, msg: Msg, inputs: seq<Input>)
    requires Inv(t) && InHand(t, st)
    ensures var t' := DeliverLogged(t, st, msg, inputs); Inv(t') && Grown(t.history, t'.history)
    decreases |inputs|
  {
    hide Inv, InHand, Prepare, Grown;
    GrownReflexive(t.history);
    InvDefinitions(t);
    if inputs != [] {
      var (st', action) := Prepare(st, t.tw, inputs[0].rec, msg, inputs[0].now);
      if !action.Noop? && inputs[0].ok {
        var f := Folding(inputs[0].rec.nano, CurrentDefinition(t.tw).delta);
        var t' := if action.Save? then Append(t, st', f) else Fold(t, st', f);
        if action.Save? {
          SaveKeepsInv(t, st, st', msg, inputs[0]);
          GrownByOne(t.history, st');
        } else {
          UpdateKeepsInv(t, st, st', msg, inputs[0]);
        }
        DeliverKeepsInv(t', st', msg, inputs[1..]);
        GrownTransitive(t.history, t'.history, DeliverLogged(t', st', msg, inputs[1..]).history);
      }
    }
  }

  lemma InvDefinitions(t: Track)
    requires Inv(t)
    ensures t.tw.definitions != []
  {
  }

  lemma GrownReflexive(h: seq<Snapshot>)
    ensures Grown(h, h)
  {
  }

  lemma GrownByOne(h: seq<Snapshot>, st: Snapshot)
    ensures Grown(h, h + [st])
  {
  }

  // ----- runs

  lemma StepKeepsInv(t: Track, e: Event)
    requires Inv(t)
    ensures Inv(Step(t, e)) && Grown(t.history, Step(t, e).history)
  {
    match e
    case Message(msg, inputs) =>
      if t.history != [] { assert WellFormedState(t.tw, t.history, |t.history| - 1); }
      DeliverKeepsInv(t, Last(t.history), msg, inputs);
    case Change(change, def, defNow, now) =>
      var t' := Step(t, e);
      forall i | 0 <= i < |t.history| ensures WellFormedState(t'.tw, t'.history, i) {
        assert WellFormedState(t.tw, t.history, i);
      }
  }

  function RunAll(t: Track, events: seq<Event>): Track
    requires Inv(t)
    decreases |events|
  {
    if events == [] then t else StepKeepsInv(t, events[0]); RunAll(Step(t, events[0]), events[1..])
  }

  // A twin just added by a caller who supplied no definitions of his own.
  function Added(twin: Twin, id: string, owner: string, def: Definition, now: int, defNow: int): Track {
    Track(NewTwin(twin, id, owner, def, now, defNow), [], [])
  }

  // Definition IDs equal positions from the start exactly when no definitions were supplied: the new one
  // is always given ID 0.
  lemma AddedIsNumberedIff(twin: Twin, id: string, owner: string, def: Definition, now: int, defNow: int)
    ensures NumberedDefinitions(NewTwin(twin, id, owner, def, now, defNow)) <==> twin.definitions == []
  {
    var tw := NewTwin(twin, id, owner, def, now, defNow);
    assert tw.definitions[|twin.definitions|].id == 0;
  }

  lemma {:induction false} RunKeepsInv(t: Track, events: seq<Event>)
    requires Inv(t)
    ensures Inv(RunAll(t, events)) && Grown(t.history, RunAll(t, events).history)
    decreases |events|
  {
    hide Inv, Grown, Step;
    GrownReflexive(t.history);
    InvDefinitions(t);
    if events != [] {
      StepKeepsInv(t, events[0]);
      RunKeepsInv(Step(t, events[0]), events[1..]);
      GrownTransitive(t.history, Step(t, events[0]).history, RunAll(t, events).history);
    }
  }

  // ----- the main results

  // A twin as a run of its own leaves it; `log` has the records folded into each of its states.
  ghost predicate InOrder(tw: Twin, history: seq<Snapshot>, log: seq<seq<Folding>>) {
    && tw.revision >= |tw.definitions| - 1
    && (forall i :: 0 <= i < |tw.definitions| ==> tw.definitions[i].id == i)
    && |log| == |history|
    && forall i :: 0 <= i < |history| ==>
         && history[i].id == i
         && 0 <= history[i].definition < |tw.definitions|
         && history[i].payload.Some?
         && PayloadFits(tw.definitions[history[i].definition], history[i].payload.value)
         && InWindow(history[i].created, log[i])
  }

  // Over any run of a twin added without definitions: definitions are numbered by position and counted by
  // the revision; states are numbered 0, 1, ..., n - 1 in order of storage; a payload names only attributes
  // that the definition it cites persists; every record folded into a state after the one that opened it is
  // timed and within the window then in force of the state's creation time.
  lemma EveryRun(twin: Twin, id: string, owner: string, def: Definition, now: int, defNow: int, events: seq<Event>)
    requires twin.definitions == []
    ensures Inv(Added(twin, id, owner, def, now, defNow))
    ensures var t := RunAll(Added(twin, id, owner, def, now, defNow), events); InOrder(t.tw, t.history, t.log)
  {
    RunKeepsInv(Added(twin, id, owner, def, now, defNow), events);
    var t := RunAll(Added(twin, id, owner, def, now, defNow), events);
    forall i | 0 <= i < |t.history|
      ensures t.history[i].id == i && 0 <= t.history[i].definition < |t.tw.definitions| && t.history[i].payload.Some?
      ensures PayloadFits(t.tw.definitions[t.history[i].definition], t.history[i].payload.value)
    {
      assert WellFormedState(t.tw, t.history, i);
    }
  }

  // The logged run stores what `saveState` stores.
  lemma {:induction false} LogIsFaithful(t: Track, st: Snapshot, msg: Msg, inputs: seq<Input>)
    requires t.tw.definitions != []
    ensures DeliverLogged(t, st, msg, inputs).history == Deliver(t.history, st, t.tw, msg, inputs).history
    decreases |inputs|
  {
    hide Prepare;
    if inputs != [] {
      var (st', action) := Prepare(st, t.tw, inputs[0].rec, msg, inputs[0].now);
      if !action.Noop? && inputs[0].ok {
        var f := Folding(inputs[0].rec.nano, CurrentDefinition(t.tw).delta);
        LogIsFaithful(if action.Save? then Append(t, st', f) else Fold(t, st', f), st', msg, inputs[1..]);
      }
    }
  }

  // The value of a record: the first of its fields, in this order, that is given.
  predicate Carries(rec: Rec, v: Val) {
    match v
    case Float(f) => rec.value == Some(f)
    case Text(t) => rec.value == None && rec.stringValue == Some(t)
    case Data(d) => rec.value == None && rec.stringValue == None && rec.dataValue == Some(d)
    case Boolean(b) => rec.value == None && rec.stringValue == None && rec.dataValue == None && rec.boolValue == Some(b)
    case Sum(x) =>
      rec.value == None && rec.stringValue == None && rec.dataValue == None && rec.boolValue == None
      && rec.sum == Some(x)
    case Null =>
      rec.value == None && rec.stringValue == None && rec.dataValue == None && rec.boolValue == None && rec.sum == None
  }

  lemma ValueIff(rec: Rec, v: Val)
    ensures FindValue(rec) == v <==> Carries(rec, v)
  {
  }

  // The payload after a record: the matched attribute has the record's value, and of the other entries
  // exactly those whose first attribute of that name is persisted survive, unchanged.
  ghost predicate Overlaid(
      before: map<string, Val>, def: Definition, name: string, rec: Rec, after: map<string, Val>)
  {
    && name in after && Carries(rec, after[name])
    && forall k :: k != name ==>
         && (k in after <==> k in before && Kept(def.attributes, k))
         && (k in after ==> after[k] == before[k])
  }

  function PayloadOf(history: seq<Snapshot>): map<string, Val> {
    match Last(history).payload case None => map[] case Some(p) => p
  }

  // The record opens a state: one is added, at the record's time or, if it has none, at the clock's.
  ghost predicate OneAdded(h: seq<Snapshot>, h': seq<Snapshot>, input: Input) {
    && |h'| == |h| + 1 && h'[..|h|] == h
    && Last(h').created == if input.rec.nano != 0 then input.rec.nano else input.now
  }

  // The record is folded in: only the newest state is touched, and it keeps its ID and time.
  ghost predicate NewestAmended(h: seq<Snapshot>, h': seq<Snapshot>) {
    && h != [] && |h'| == |h| && h'[..|h| - 1] == h[..|h| - 1]
    && Last(h').id == Last(h).id && Last(h').created == Last(h).created
  }

  // The newest state cites the current definition and carries the record's value.
  ghost predicate NewestCarries(h: seq<Snapshot>, h': seq<Snapshot>, def: Definition, i: nat, rec: Rec)
    requires i < |def.attributes|
  {
    && Last(h').definition == def.id && Last(h').payload.Some?
    && Overlaid(PayloadOf(h), def, def.attributes[i].name, rec, PayloadOf(h'))
  }

  // No time, or one further from the state's than the window reaches.
  predicate OutsideWindow(created: int, delta: int, nano: int) {
    nano == 0 || nano < created - delta || created + delta < nano
  }

  lemma OpensIff(created: int, def: Definition, rec: Rec)
    ensures Opens(created, def, rec) <==> OutsideWindow(created, def.delta, rec.nano)
  {
  }

  // What a single record does to the stored states, in full. A record that feeds no persisted attribute
  // changes nothing. One that is untimed or outside the window adds a state. Any other amends the newest
  // state, and is lost when there is none: before the first state exists the window is that of the zero time.
  lemma RecordOutcome(t: Track, msg: Msg, input: Input)
    requires Inv(t) && input.ok
    ensures var def := CurrentDefinition(t.tw);
            var after := Step(t, Message(msg, [input])).history;
            match FirstMatch(def.attributes, msg)
            case None => after == t.history
            case Some(i) =>
              if OutsideWindow(Last(t.history).created, def.delta, input.rec.nano) then
                OneAdded(t.history, after, input) && NewestCarries(t.history, after, def, i, input.rec)
              else if t.history == [] then after == []
              else NewestAmended(t.history, after) && NewestCarries(t.history, after, def, i, input.rec)
  {
    hide Inv, Step, Prepare, OneAdded, NewestAmended, NewestCarries, Opens;
    InvDefinitions(t);
    var def := CurrentDefinition(t.tw);
    OpensIff(Last(t.history).created, def, input.rec);
    if FirstMatch(def.attributes, msg).None? {
      NoRecordFed(t, msg, input);
    } else if Opens(Last(t.history).created, def, input.rec) {
      RecordAdds(t, msg, input);
    } else {
      RecordAmends(t, msg, input);
    }
  }

  // One record, given what it does to the state in hand.
  lemma OneRecord(t: Track, msg: Msg, input: Input)
    requires t.tw.definitions != [] && input.ok
    ensures var (st', action) := Prepare(Last(t.history), t.tw, input.rec, msg, input.now);
            Step(t, Message(msg, [input])).history
            == match action
               case Noop => t.history
               case Save => t.history + [st']
               case Update => Amend(t.history, st')
  {
    hide Prepare, Amend;
    var (st', action) := Prepare(Last(t.history), t.tw, input.rec, msg, input.now);
    var f := Folding(input.rec.nano, CurrentDefinition(t.tw).delta);
    assert [input][1..] == [];
    if !action.Noop? {
      NoMoreRecords(if action.Save? then Append(t, st', f) else Fold(t, st', f), st', msg);
    }
  }

  lemma NoMoreRecords(t: Track, st: Snapshot, msg: Msg)
    requires t.tw.definitions != []
    ensures DeliverLogged(t, st, msg, []) == t
  {
  }

  lemma NoRecordFed(t: Track, msg: Msg, input: Input)
    requires t.tw.definitions != [] && input.ok && FirstMatch(CurrentDefinition(t.tw).attributes, msg).None?
    ensures Step(t, Message(msg, [input])).history == t.history
  {
    hide Step;
    OneRecord(t, msg, input);
  }

  // The state in hand: its ID is the newest position, -1 before there is any.
  lemma LastInHand(t: Track)
    requires Inv(t)
    ensures var st := Last(t.history);
            (if st.payload.None? then -1 else st.id) == |t.history| - 1 && (st.payload.None? <==> t.history == [])
    ensures forall i :: 0 <= i < |t.history| ==> t.history[i].id == i
  {
    forall i | 0 <= i < |t.history| ensures t.history[i].id == i && t.history[i].payload.Some? {
      assert WellFormedState(t.tw, t.history, i);
    }
  }

  lemma RecordAdds(t: Track, msg: Msg, input: Input)
    requires Inv(t) && input.ok && FirstMatch(CurrentDefinition(t.tw).attributes, msg).Some?
    requires Opens(Last(t.history).created, CurrentDefinition(t.tw), input.rec)
    ensures var def, after := CurrentDefinition(t.tw), Step(t, Message(msg, [input])).history;
            && OneAdded(t.history, after, input)
            && NewestCarries(t.history, after, def, FirstMatch(def.attributes, msg).value, input.rec)
  {
    hide Inv, Step, Opens, FirstMatch, Kept, FindValue, Carries;
    InvDefinitions(t);
    LastInHand(t);
    OneRecord(t, msg, input);
    ValueIff(input.rec, FindValue(input.rec));
  }

  lemma RecordAmends(t: Track, msg: Msg, input: Input)
    requires Inv(t) && input.ok && FirstMatch(CurrentDefinition(t.tw).attributes, msg).Some?
    requires !Opens(Last(t.history).created, CurrentDefinition(t.tw), input.rec)
    ensures var def, after := CurrentDefinition(t.tw), Step(t, Message(msg, [input])).history;
            if t.history == [] then after == []
            else (NewestAmended(t.history, after)
                  && NewestCarries(t.history, after, def, FirstMatch(def.attributes, msg).value, input.rec))
  {
    hide Inv, Step, Prepare, NewestAmended, NewestCarries;
    InvDefinitions(t);
    LastInHand(t);
    OneRecord(t, msg, input);
    var (st', action) := Prepare(Last(t.history), t.tw, input.rec, msg, input.now);
    AmendingRecord(Last(t.history), t.tw, msg, input);
    if t.history != [] {
      AmendLast(t.history, st', 0);
      LastReplaced(t.history, st');
      ReplacedCarries(t.history, t.history[..|t.history| - 1] + [st'], t.tw, msg, input);
    }
  }

  // The state prepared for a record that does not open one.
  lemma AmendingRecord(st: Snapshot, tw: Twin, msg: Msg, input: Input)
    requires tw.definitions != [] && FirstMatch(CurrentDefinition(tw).attributes, msg).Some?
    requires !Opens(st.created, CurrentDefinition(tw), input.rec)
    ensures var (st', action) := Prepare(st, tw, input.rec, msg, input.now);
            action.Update? && st'.created == st.created && st'.id == if st.payload.None? then -1 else st.id
  {
    hide Opens, FirstMatch, FindValue;
  }

  lemma LastReplaced(h: seq<Snapshot>, st': Snapshot)
    requires h != [] && st'.id == Last(h).id && st'.created == Last(h).created
    ensures NewestAmended(h, h[..|h| - 1] + [st'])
  {
  }

  lemma ReplacedCarries(h: seq<Snapshot>, h': seq<Snapshot>, tw: Twin, msg: Msg, input: Input)
    requires h != [] && h' != [] && Last(h).payload.Some?
    requires tw.definitions != [] && FirstMatch(CurrentDefinition(tw).attributes, msg).Some?
    requires Last(h') == Prepare(Last(h), tw, input.rec, msg, input.now).0
    ensures var def := CurrentDefinition(tw);
            NewestCarries(h, h', def, FirstMatch(def.attributes, msg).value, input.rec)
  {
    hide Last, Opens, FirstMatch, Kept, FindValue, Carries;
    ValueIff(input.rec, FindValue(input.rec));
  }

  // ----- records that are lost, windows that are empty

  // The first record a twin is fed is acknowledged and stored nowhere exactly when it lies in the window of the
  // zero time.
  lemma FirstRecordLostIff(tw: Twin, msg: Msg, input: Input)
    requires tw.definitions != [] && input.ok && FirstMatch(CurrentDefinition(tw).attributes, msg).Some?
    ensures Deliver([], NO_STATE, tw, msg, [input]) == Delivered([], false)
       <==> input.rec.nano != 0 && Abs(ZERO_TIME - input.rec.nano) <= CurrentDefinition(tw).delta
  {
    assert [input][1..] == [];
  }

  const BLANK := Twin("", "", "", 0, 0, 0, [], map[])
  const TEMPERATURE := Attribute("temperature", "c", "", true)

  function TimedRec(nano: int): Rec {
    Rec(nano, Some(1.0), None, None, None, None)
  }

  // With one definition supplied, the one added comes second and has ID 0.
  lemma SuppliedDefinitionBreaksNumbering()
    ensures var def := Definition(0, 0, [], 1);
            var tw := NewTwin(BLANK.(definitions := [def]), "t", "o", def, 0, 0);
            |tw.definitions| == 2 && tw.definitions[1].id == 0 && !NumberedDefinitions(tw)
  {
    AddedIsNumberedIff(BLANK.(definitions := [Definition(0, 0, [], 1)]), "t", "o", Definition(0, 0, [], 1), 0, 0);
  }

  // A record of September 2020 under a window of 285 years.
  lemma FirstRecordLost()
    ensures var tw := NewTwin(BLANK, "t", "o", Definition(0, 0, [TEMPERATURE], 9_000_000_000_000_000_000), 0, 0);
            Deliver([], NO_STATE, tw, Msg("c", ""), [Input(TimedRec(1_600_000_000_000_000_000), 0, true)])
            == Delivered([], false)
  {
    var tw := NewTwin(BLANK, "t", "o", Definition(0, 0, [TEMPERATURE], 9_000_000_000_000_000_000), 0, 0);
    FirstRecordLostIff(tw, Msg("c", ""), Input(TimedRec(1_600_000_000_000_000_000), 0, true));
  }

  // A definition added by an update keeps the window given, where a first definition never has one of 0. Under a
  // window of 0 only records at exactly the state's time are folded in, under a negative one none.
  lemma ZeroWindowIff(tw: Twin, change: Twin, def: Definition, defNow: int, now: int, created: int, rec: Rec)
    requires tw.definitions != [] && def.attributes != []
    ensures CurrentDefinition(NewTwin(change, "", "", def, now, defNow)).delta != 0
    ensures var revised := Revise(tw, change, def, defNow, now);
            && revised.Some? && CurrentDefinition(revised.value).delta == def.delta
            && (def.delta == 0 ==>
                  (Opens(created, CurrentDefinition(revised.value), rec) <==> rec.nano == 0 || rec.nano != created))
            && (def.delta < 0 ==> Opens(created, CurrentDefinition(revised.value), rec))
  {
  }

  // Two records that feed the twin, the first opening a state at its time.
  lemma TwoRecords(tw: Twin, msg: Msg, first: Input, second: Input)
    requires tw.definitions != [] && FirstMatch(CurrentDefinition(tw).attributes, msg).Some?
    requires first.ok && second.ok && first.rec.nano != 0 && Opens(ZERO_TIME, CurrentDefinition(tw), first.rec)
    ensures |Deliver([], NO_STATE, tw, msg, [first, second]).history|
         == if Opens(first.rec.nano, CurrentDefinition(tw), second.rec) then 2 else 1
  {
    hide FirstMatch, FindValue;
    var (st, _) := Prepare(NO_STATE, tw, first.rec, msg, first.now);
    var (st', _) := Prepare(st, tw, second.rec, msg, second.now);
    assert [first, second][1..] == [second] && [second][1..] == [];
    assert [st][1..] == [] && Amend([], st') == [];
    assert |Amend([st], st')| == 1;
    assert [] + [st] == [st];
    assert Deliver([], NO_STATE, tw, msg, [first, second]) == Deliver([st], st, tw, msg, [second]);
    assert Deliver([st], st, tw, msg, [second]).history
        == if Opens(first.rec.nano, CurrentDefinition(tw), second.rec) then [st] + [st'] else Amend([st], st');
  }

  // Two records a nanosecond apart are one state under a first definition without a window and two under the
  // same definition added by an update.
  lemma WindowIsNotDefaultedOnUpdate()
    ensures var def := Definition(0, 0, [TEMPERATURE], 0);
            var tw := NewTwin(BLANK, "t", "o", def, 0, 0);
            var revised := Revise(tw, BLANK, def, 0, 0);
            var inputs := [Input(TimedRec(5), 0, true), Input(TimedRec(6), 0, true)];
            && |Deliver([], NO_STATE, tw, Msg("c", ""), inputs).history| == 1
            && revised.Some? && |Deliver([], NO_STATE, revised.value, Msg("c", ""), inputs).history| == 2
  {
    hide Deliver;
    var def := Definition(0, 0, [TEMPERATURE], 0);
    var tw := NewTwin(BLANK, "t", "o", def, 0, 0);
    var a, b := Input(TimedRec(5), 0, true), Input(TimedRec(6), 0, true);
    TwoRecords(tw, Msg("c", ""), a, b);
    TwoRecords(Revise(tw, BLANK, def, 0, 0).value, Msg("c", ""), a, b);
  }
}
