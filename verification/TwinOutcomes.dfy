// What the operations on twins store and report, stated on the fields of what they are given.
module TwinOutcomes {
  import opened Wrappers
  import opened TwinStates
  import opened TwinProofs
  import opened TwinRuns

  // ----- attributes

  // Persisted, on the message's channel, and for its subtopic or any.
  predicate Feeds(msg: Msg, attr: Attribute) {
    attr.persistState && msg.channel == attr.channel && attr.subtopic in [">", msg.subtopic]
  }

  // The attribute a message feeds is the first that it can feed.
  lemma FirstMatchIff(attrs: seq<Attribute>, msg: Msg, i: nat)
    ensures FirstMatch(attrs, msg) == Some(i)
       <==> i < |attrs| && Feeds(msg, attrs[i]) && forall j :: 0 <= j < i ==> !Feeds(msg, attrs[j])
    ensures FirstMatch(attrs, msg) == None <==> forall j :: 0 <= j < |attrs| ==> !Feeds(msg, attrs[j])
  {
    forall j | 0 <= j < |attrs| ensures Matches(attrs[j], msg) <==> Feeds(msg, attrs[j]) {
    }
  }

  predicate FirstNamed(attrs: seq<Attribute>, key: string, i: nat) {
    i < |attrs| && attrs[i].name == key && forall j :: 0 <= j < i ==> attrs[j].name != key
  }

  // A key is kept by the first attribute of its name, if there is one and it is persisted.
  lemma {:induction false} KeptIff(attrs: seq<Attribute>, key: string)
    ensures Kept(attrs, key) <==> exists i: nat :: FirstNamed(attrs, key, i) && attrs[i].persistState
    decreases |attrs|
  {
    if attrs != [] {
      var rest := attrs[1..];
      KeptIff(rest, key);
      forall i: nat | 0 < i
        ensures FirstNamed(attrs, key, i) <==> attrs[0].name != key && FirstNamed(rest, key, i - 1)
      {
        FirstNamedBelow(attrs, key, i);
      }
      if attrs[0].name == key {
        assert FirstNamed(attrs, key, 0);
      } else if i: nat :| FirstNamed(rest, key, i) && rest[i].persistState {
        assert FirstNamed(attrs, key, i + 1) && attrs[i + 1] == rest[i];
      }
    }
  }

  lemma FirstNamedBelow(attrs: seq<Attribute>, key: string, i: nat)
    requires attrs != [] && i > 0
    ensures FirstNamed(attrs, key, i) <==> attrs[0].name != key && FirstNamed(attrs[1..], key, i - 1)
  {
    assert forall j :: 0 < j < |attrs| ==> attrs[j] == attrs[1..][j - 1];
    assert forall j :: 0 <= j < |attrs| - 1 ==> attrs[1..][j] == attrs[j + 1];
  }

  // ----- the store

  predicate FirstWith(history: seq<Snapshot>, id: int, i: nat) {
    i < |history| && history[i].id == id && forall j :: 0 <= j < i ==> history[j].id != id
  }

  // An update replaces the first state with that ID and leaves the others; without one it changes nothing.
  lemma {:induction false} AmendFirst(history: seq<Snapshot>, st: Snapshot)
    ensures |Amend(history, st)| == |history|
    ensures forall i: nat :: i < |history| ==>
              Amend(history, st)[i] == if FirstWith(history, st.id, i) then st else history[i]
    decreases |history|
  {
    if history != [] {
      AmendFirst(history[1..], st);
      hide FirstWith;
      forall i: nat | 0 < i < |history|
        ensures FirstWith(history, st.id, i) <==> history[0].id != st.id && FirstWith(history[1..], st.id, i - 1)
      {
        FirstWithBelow(history, st.id, i);
      }
      assert FirstWith(history, st.id, 0) <==> history[0].id == st.id by { FirstWithNone(history, st.id); }
    }
  }

  lemma FirstWithNone(history: seq<Snapshot>, id: int)
    requires history != []
    ensures FirstWith(history, id, 0) <==> history[0].id == id
  {
  }

  lemma FirstWithBelow(history: seq<Snapshot>, id: int, i: nat)
    requires history != [] && i > 0
    ensures FirstWith(history, id, i) <==> history[0].id != id && FirstWith(history[1..], id, i - 1)
  {
    assert forall j :: 0 < j < |history| ==> history[j] == history[1..][j - 1];
    assert forall j :: 0 <= j < |history| - 1 ==> history[1..][j] == history[j + 1];
  }

  // ----- a message is its records, one after the other

  // One message for each record, up to and including the first whose write is refused.
  function Singles(msg: Msg, inputs: seq<Input>): seq<Event> {
    if inputs == [] then [] else [Message(msg, [inputs[0]])] + (if inputs[0].ok then Singles(msg, inputs[1..]) else [])
  }

  // Two states in hand that no record of this message tells apart.
  ghost predicate Alike(st: Snapshot, st': Snapshot, tw: Twin, msg: Msg)
    requires tw.definitions != []
  {
    forall rec, now :: Prepare(st, tw, rec, msg, now) == Prepare(st', tw, rec, msg, now)
  }

  lemma AlikeDelivers(t: Track, st: Snapshot, st': Snapshot, msg: Msg, inputs: seq<Input>)
    requires t.tw.definitions != [] && Alike(st, st', t.tw, msg)
    ensures DeliverLogged(t, st, msg, inputs) == DeliverLogged(t, st', msg, inputs)
  {
    hide Prepare;
    if inputs != [] {
      var rec, now := inputs[0].rec, inputs[0].now;
      assert Prepare(st, t.tw, rec, msg, now) == Prepare(st', t.tw, rec, msg, now);
    }
  }

  // What is in hand after one record does as well as the newest state, also where the record was lost.
  lemma InHandIsLast(t: Track, msg: Msg, input: Input)
    requires Inv(t) && input.ok && FirstMatch(CurrentDefinition(t.tw).attributes, msg).Some?
    ensures t.tw.definitions != []
    ensures var st' := Prepare(Last(t.history), t.tw, input.rec, msg, input.now).0;
            Alike(st', Last(Step(t, Message(msg, [input])).history), t.tw, msg)
  {
    hide Inv, Step, Prepare;
    InvDefinitions(t);
    LastInHand(t);
    OneRecord(t, msg, input);
    var (st', action) := Prepare(Last(t.history), t.tw, input.rec, msg, input.now);
    FedActs(Last(t.history), t.tw, msg, input);
    if action.Update? {
      if t.history == [] {
        LostAlike(t.tw, input.rec, msg, input.now);
      } else {
        AmendLast(t.history, st', 0);
      }
    }
  }

  lemma FedActs(st: Snapshot, tw: Twin, msg: Msg, input: Input)
    requires tw.definitions != [] && FirstMatch(CurrentDefinition(tw).attributes, msg).Some?
    ensures var (st', action) := Prepare(st, tw, input.rec, msg, input.now);
            !action.Noop? && (action.Update? ==> st'.id == if st.payload.None? then -1 else st.id)
  {
  }

  lemma LostAlike(tw: Twin, rec: Rec, msg: Msg, now: int)
    requires tw.definitions != [] && Prepare(NO_STATE, tw, rec, msg, now).1 == Update
    ensures Alike(Prepare(NO_STATE, tw, rec, msg, now).0, NO_STATE, tw, msg)
  {
    var st := Prepare(NO_STATE, tw, rec, msg, now).0;
    var def := CurrentDefinition(tw);
    var name := def.attributes[FirstMatch(def.attributes, msg).value].name;
    hide FirstMatch, Kept, Opens, FindValue;
    assert st.payload == Some(map[name := FindValue(rec)]);
    forall rec', now' ensures Prepare(st, tw, rec', msg, now') == Prepare(NO_STATE, tw, rec', msg, now') {
      assert Retained(st.payload.value, def.attributes)[name := FindValue(rec')] == map[][name := FindValue(rec')];
    }
  }

  // A record that is fed and stored, then the rest of its message as one of its own.
  lemma FedFirst(t: Track, msg: Msg, inputs: seq<Input>)
    requires Inv(t) && inputs != [] && inputs[0].ok
    requires t.tw.definitions != [] && FirstMatch(CurrentDefinition(t.tw).attributes, msg).Some?
    ensures var t1 := Step(t, Message(msg, [inputs[0]]));
            t1.tw == t.tw && Step(t, Message(msg, inputs)) == Step(t1, Message(msg, inputs[1..]))
  {
    hide Inv, Prepare, FirstMatch, Alike;
    var (st', action) := Prepare(Last(t.history), t.tw, inputs[0].rec, msg, inputs[0].now);
    FedActs(Last(t.history), t.tw, msg, inputs[0]);
    InHandIsLast(t, msg, inputs[0]);
    var f := Folding(inputs[0].rec.nano, CurrentDefinition(t.tw).delta);
    var t1 := if action.Save? then Append(t, st', f) else TwinProofs.Fold(t, st', f);
    NoMoreRecords(t1, st', msg);
    assert [inputs[0]][1..] == [];
    assert Step(t, Message(msg, [inputs[0]])) == t1;
    AlikeDelivers(t1, st', Last(t1.history), msg, inputs[1..]);
  }

  lemma {:induction false} UnfedSingles(t: Track, msg: Msg, inputs: seq<Input>)
    requires Inv(t) && t.tw.definitions != [] && FirstMatch(CurrentDefinition(t.tw).attributes, msg).None?
    ensures RunAll(t, Singles(msg, inputs)) == t
    decreases |inputs|
  {
    hide Inv, FirstMatch, Step;
    if inputs != [] {
      var one := Message(msg, [inputs[0]]);
      assert Step(t, one) == t by { UnfedIsNothing(t, msg, [inputs[0]]); }
      RunAllOne(t, one);
      RunAllConcat(t, [one], if inputs[0].ok then Singles(msg, inputs[1..]) else []);
      if inputs[0].ok { UnfedSingles(t, msg, inputs[1..]); }
    }
  }

  lemma UnfedIsNothing(t: Track, msg: Msg, inputs: seq<Input>)
    requires t.tw.definitions != [] && FirstMatch(CurrentDefinition(t.tw).attributes, msg).None?
    ensures Step(t, Message(msg, inputs)) == t
  {
    UnfedStops(t, Last(t.history), msg, inputs);
  }

  lemma RefusedFirst(t: Track, msg: Msg, inputs: seq<Input>)
    requires t.tw.definitions != [] && inputs != [] && !inputs[0].ok
    ensures Step(t, Message(msg, inputs)) == t
  {
    hide Prepare;
  }

  lemma {:induction false} MessageIsItsRecords(t: Track, msg: Msg, inputs: seq<Input>)
    requires Inv(t)
    ensures t.tw.definitions != [] && Step(t, Message(msg, inputs)) == RunAll(t, Singles(msg, inputs))
    decreases |inputs|
  {
    hide Inv, FirstMatch, Step;
    InvDefinitions(t);
    if FirstMatch(CurrentDefinition(t.tw).attributes, msg).None? {
      UnfedIsNothing(t, msg, inputs);
      UnfedSingles(t, msg, inputs);
    } else if inputs == [] {
      RunAllOne(t, Message(msg, []));
      assert Step(t, Message(msg, [])) == t by { EmptyMessage(t, msg); }
    } else {
      var one := Message(msg, [inputs[0]]);
      StepKeepsInv(t, one);
      RunAllOne(t, one);
      if inputs[0].ok {
        FedFirst(t, msg, inputs);
        MessageIsItsRecords(Step(t, one), msg, inputs[1..]);
        RunAllConcat(t, [one], Singles(msg, inputs[1..]));
      } else {
        RefusedFirst(t, msg, inputs);
        RefusedRecord(t, msg, inputs[0]);
        assert Singles(msg, inputs) == [one];
      }
    }
  }

  lemma EmptyMessage(t: Track, msg: Msg)
    requires t.tw.definitions != []
    ensures Step(t, Message(msg, [])) == t
  {
  }

  lemma UnfedStops(t: Track, st: Snapshot, msg: Msg, inputs: seq<Input>)
    requires t.tw.definitions != [] && FirstMatch(CurrentDefinition(t.tw).attributes, msg).None?
    ensures DeliverLogged(t, st, msg, inputs) == t
  {
  }

  // A record whose write is refused changes no state.
  lemma RefusedRecord(t: Track, msg: Msg, input: Input)
    requires t.tw.definitions != [] && !input.ok
    ensures Step(t, Message(msg, [input])) == t
  {
    hide Prepare;
  }

  // The log has every record that was stored, with the window in force, at the state it went into.
  lemma RecordLogged(t: Track, msg: Msg, input: Input)
    requires Inv(t) && input.ok && t.tw.definitions != []
    requires FirstMatch(CurrentDefinition(t.tw).attributes, msg).Some?
    ensures var def, log := CurrentDefinition(t.tw), Step(t, Message(msg, [input])).log;
            var f, n := Folding(input.rec.nano, def.delta), |t.log|;
            if OutsideWindow(Last(t.history).created, def.delta, input.rec.nano) then log == t.log + [[f]]
            else if n == 0 then log == []
            else |log| == n && log[..n - 1] == t.log[..n - 1] && log[n - 1] == t.log[n - 1] + [f]
  {
    hide Inv, FirstMatch, Opens, FindValue, Kept;
    InvLog(t);
    LastInHand(t);
    var def := CurrentDefinition(t.tw);
    OpensIff(Last(t.history).created, def, input.rec);
    var (st', action) := Prepare(Last(t.history), t.tw, input.rec, msg, input.now);
    var f := Folding(input.rec.nano, def.delta);
    NoMoreRecords(if action.Save? then Append(t, st', f) else TwinProofs.Fold(t, st', f), st', msg);
    assert [input][1..] == [];
  }

  lemma InvLog(t: Track)
    requires Inv(t)
    ensures |t.log| == |t.history|
  {
  }

  // ----- what is reported

  predicate Fed(tw: Twin, msg: Msg)
    requires tw.definitions != []
  {
    exists i :: 0 <= i < |CurrentDefinition(tw).attributes| && Feeds(msg, CurrentDefinition(tw).attributes[i])
  }

  // A delivery fails exactly when the message feeds the twin and a write for one of its records is refused.
  lemma {:induction false} DeliverFailsIff(
      history: seq<Snapshot>, st: Snapshot, tw: Twin, msg: Msg, inputs: seq<Input>)
    requires tw.definitions != []
    ensures Deliver(history, st, tw, msg, inputs).failed
       <==> Fed(tw, msg) && exists k :: 0 <= k < |inputs| && !inputs[k].ok
    decreases |inputs|
  {
    var attrs := CurrentDefinition(tw).attributes;
    assert Fed(tw, msg) <==> FirstMatch(attrs, msg).Some? by { FirstMatchIff(attrs, msg, 0); }
    hide FirstMatch, Fed, Prepare;
    if inputs != [] {
      if FirstMatch(attrs, msg).None? {
        UnfedNoop(st, tw, inputs[0].rec, msg, inputs[0].now);
      } else {
        FedActs(st, tw, msg, inputs[0]);
        var (st', action) := Prepare(st, tw, inputs[0].rec, msg, inputs[0].now);
        if inputs[0].ok {
          DeliverFailsIff(if action.Save? then history + [st'] else Amend(history, st'), st', tw, msg, inputs[1..]);
          assert forall k :: 0 < k < |inputs| ==> inputs[k] == inputs[1..][k - 1];
          assert forall k :: 0 <= k < |inputs| - 1 ==> inputs[1..][k] == inputs[k + 1];
        }
      }
    }
  }

  lemma UnfedNoop(st: Snapshot, tw: Twin, rec: Rec, msg: Msg, now: int)
    requires tw.definitions != [] && FirstMatch(CurrentDefinition(tw).attributes, msg).None?
    ensures Prepare(st, tw, rec, msg, now).1 == Noop
  {
  }

  // What one twin makes of a message goes well.
  predicate GoesWell(twins: map<string, Twin>, msg: Msg, id: string, attempt: Attempt)
    requires forall i :: i in twins ==> twins[i].definitions != []
  {
    && id in twins && attempt.inputs.Some? && attempt.retrieved
    && (Fed(twins[id], msg) ==> forall k :: 0 <= k < |attempt.inputs.value| ==> attempt.inputs.value[k].ok)
  }

  lemma SaveOneFailsIff(states: States, twins: map<string, Twin>, msg: Msg, id: string, attempt: Attempt)
    requires forall i :: i in twins ==> twins[i].definitions != []
    ensures var err := SaveOne(states, twins, msg, id, attempt).err;
            && (err == None <==> GoesWell(twins, msg, id, attempt))
            && (err == Some(NotFound) <==> id !in twins)
            && (err == Some(Malformed) <==> id in twins && attempt.inputs.None?)
            && (err.Some? ==> err.value in [NotFound, Malformed, StoreFailure])
  {
    hide Deliver, Fed;
    if id in twins && attempt.inputs.Some? {
      var history := History(states, id);
      DeliverFailsIff(history, Last(history), twins[id], msg, attempt.inputs.value);
    }
  }

  // A message is acknowledged exactly when it goes well for every twin it was looked up for.
  lemma {:induction false} SaveAllFailsIff(
      states: States, twins: map<string, Twin>, msg: Msg, ids: seq<string>, attempts: seq<Attempt>)
    requires forall i :: i in twins ==> twins[i].definitions != []
    requires |ids| == |attempts|
    ensures SaveAll(states, twins, msg, ids, attempts).err == None
       <==> forall j :: 0 <= j < |ids| ==> GoesWell(twins, msg, ids[j], attempts[j])
    decreases |ids|
  {
    hide SaveOne, GoesWell;
    if ids != [] {
      SaveOneFailsIff(states, twins, msg, ids[0], attempts[0]);
      var s := SaveOne(states, twins, msg, ids[0], attempts[0]);
      if s.err.None? { SaveAllFailsIff(s.states, twins, msg, ids[1..], attempts[1..]); }
      assert forall j :: 0 < j < |ids| ==> ids[j] == ids[1..][j - 1] && attempts[j] == attempts[1..][j - 1];
      assert forall j :: 0 <= j < |ids| - 1 ==> ids[1..][j] == ids[j + 1] && attempts[1..][j] == attempts[j + 1];
    }
  }

  // ----- twins

  // A new twin belongs to the caller and keeps what it was given; its definition comes last, with ID 0.
  lemma AddedTwin(twin: Twin, id: string, owner: string, def: Definition, now: int, defNow: int)
    ensures var tw := NewTwin(twin, id, owner, def, now, defNow);
            && tw.owner == owner && tw.id == id && tw.created == now && tw.updated == now && tw.revision == 0
            && tw.name == twin.name && tw.metadata == twin.metadata
            && |tw.definitions| == |twin.definitions| + 1 && tw.definitions[..|twin.definitions|] == twin.definitions
            && var added := tw.definitions[|twin.definitions|];
               && added.id == 0 && added.created == defNow && added.attributes == def.attributes
               && (def.delta != 0 ==> added.delta == def.delta) && (def.delta == 0 ==> added.delta == 1_000_000)
  {
  }

  // An update goes through exactly if it names something new; what it does not name is kept.
  lemma RevisedTwin(tw: Twin, change: Twin, def: Definition, defNow: int, now: int)
    requires tw.definitions != []
    ensures var r := Revise(tw, change, def, defNow, now);
            && (r == None <==> change.name == "" && def.attributes == [] && change.metadata == map[])
            && (r.Some? ==>
                  var tw' := r.value; var n := |tw.definitions|;
                  && tw'.id == tw.id && tw'.owner == tw.owner && tw'.created == tw.created
                  && tw'.updated == now && tw'.revision == tw.revision + 1
                  && (change.name != "" ==> tw'.name == change.name) && (change.name == "" ==> tw'.name == tw.name)
                  && (change.metadata != map[] ==> tw'.metadata == change.metadata)
                  && (change.metadata == map[] ==> tw'.metadata == tw.metadata)
                  && (def.attributes == [] ==> tw'.definitions == tw.definitions)
                  && (def.attributes != [] ==>
                        && |tw'.definitions| == n + 1 && tw'.definitions[..n] == tw.definitions
                        && tw'.definitions[n].id == tw.definitions[n - 1].id + 1
                        && tw'.definitions[n].created == defNow && tw'.definitions[n].delta == def.delta
                        && tw'.definitions[n].attributes == def.attributes))
  {
  }
}
