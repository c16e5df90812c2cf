// Runs of the whole service: many twins, added, updated and fed in any order.
module TwinRuns {
  import opened Wrappers
  import opened TwinStates
  import opened TwinProofs

  type States = map<string, seq<Snapshot>>

  datatype Service = Service(twins: map<string, Twin>, states: States)

  const EMPTY := Service(map[], map[])

  // The calls that reach the store; the others change nothing.
  datatype Op =
    | Add(id: string, origin: Origin)
    | Revision(change: Twin, def: Definition, defNow: int, now: int)
    | Delivery(msg: Msg, ids: seq<string>, attempts: seq<Attempt>)

  // What a twin was added with.
  datatype Origin = Origin(twin: Twin, owner: string, def: Definition, now: int, defNow: int)

  predicate Defined(w: Service) {
    forall id :: id in w.twins ==> w.twins[id].definitions != []
  }

  // Identifiers are fresh and callers supply no definitions of their own.
  predicate Admissible(w: Service, op: Op) {
    match op
    case Add(id, origin) => id !in w.twins && id !in w.states && origin.twin.definitions == []
    case Revision(_, _, _, _) => true
    case Delivery(_, ids, attempts) => |ids| == |attempts|
  }

  function Next(w: Service, op: Op): (w': Service)
    requires Defined(w) && Admissible(w, op)
    ensures Defined(w')
  {
    match op
    case Add(id, o) => w.(twins := w.twins[id := NewTwin(o.twin, id, o.owner, o.def, o.now, o.defNow)])
    case Revision(change, def, defNow, now) =>
      if change.id !in w.twins then w
      else
        (match Revise(w.twins[change.id], change, def, defNow, now)
         case None => w
         case Some(tw) => w.(twins := w.twins[change.id := tw]))
    case Delivery(msg, ids, attempts) => w.(states := SaveAll(w.states, w.twins, msg, ids, attempts).states)
  }

  predicate IsRun(w: Service, ops: seq<Op>)
    requires Defined(w)
    decreases |ops|
  {
    ops == [] || (Admissible(w, ops[0]) && IsRun(Next(w, ops[0]), ops[1..]))
  }

  function RunService(w: Service, ops: seq<Op>): (w': Service)
    requires Defined(w) && IsRun(w, ops)
    ensures Defined(w')
    decreases |ops|
  {
    if ops == [] then w else RunService(Next(w, ops[0]), ops[1..])
  }

  // ----- what a run addresses to one twin

  // The deliveries of a message that reach a twin: one for each time it is served before the first failure.
  function Served(w: Service, msg: Msg, ids: seq<string>, attempts: seq<Attempt>, id: string): seq<Event>
    requires Defined(w) && |ids| == |attempts|
    decreases |ids|
  {
    if ids == [] then []
    else
      var s := SaveOne(w.states, w.twins, msg, ids[0], attempts[0]);
      (if ids[0] == id then Reached(w, msg, id, attempts[0]) else [])
      + (if s.err.Some? then [] else Served(w.(states := s.states), msg, ids[1..], attempts[1..], id))
  }

  // The delivery of one attempt, unless it fails before the first record.
  function Reached(w: Service, msg: Msg, id: string, attempt: Attempt): seq<Event> {
    if id in w.twins && attempt.inputs.Some? && attempt.retrieved then [Message(msg, attempt.inputs.value)] else []
  }

  function OwnEvents(w: Service, op: Op, id: string): seq<Event>
    requires Defined(w) && Admissible(w, op)
  {
    match op
    case Add(_, _) => []
    case Revision(change, def, defNow, now) =>
      if change.id == id && id in w.twins then [Change(change, def, defNow, now)] else []
    case Delivery(msg, ids, attempts) => Served(w, msg, ids, attempts, id)
  }

  function EventsFrom(w: Service, ops: seq<Op>, id: string): seq<Event>
    requires Defined(w) && IsRun(w, ops)
    decreases |ops|
  {
    if ops == [] then [] else OwnEvents(w, ops[0], id) + EventsFrom(Next(w, ops[0]), ops[1..], id)
  }

  // The track of one twin agrees with the service.
  predicate Tracks(t: Track, w: Service, id: string) {
    id in w.twins && t.tw == w.twins[id] && t.history == History(w.states, id)
  }

  // ----- one twin of many

  lemma {:induction false} RunAllConcat(t: Track, a: seq<Event>, b: seq<Event>)
    requires Inv(t)
    ensures Inv(RunAll(t, a)) && RunAll(t, a + b) == RunAll(RunAll(t, a), b)
    decreases |a|
  {
    hide Inv, Step;
    if a == [] {
      assert a + b == b;
    } else {
      InvDefinitions(t);
      StepKeepsInv(t, a[0]);
      RunAllConcat(Step(t, a[0]), a[1..], b);
      assert (a + b)[1..] == a[1..] + b && (a + b)[0] == a[0];
    }
  }

  lemma RunAllOne(t: Track, e: Event)
    requires Inv(t)
    ensures t.tw.definitions != [] && RunAll(t, [e]) == Step(t, e) && RunAll(t, []) == t
  {
    hide Inv, Step;
    InvDefinitions(t);
    StepKeepsInv(t, e);
    assert [e][1..] == [];
  }

  // Serving one twin is at most one delivery to it and nothing to the others.
  lemma SaveOneTracks(w: Service, msg: Msg, to: string, attempt: Attempt, id: string, t: Track)
    requires Defined(w) && Inv(t) && Tracks(t, w, id)
    ensures var w' := w.(states := SaveOne(w.states, w.twins, msg, to, attempt).states);
            var own := if to == id then Reached(w, msg, id, attempt) else [];
            Tracks(RunAll(t, own), w', id)
  {
    hide Inv, RunAll, Deliver, DeliverLogged, Last;
    if to == id && Reached(w, msg, id, attempt) != [] {
      var inputs := attempt.inputs.value;
      RunAllOne(t, Message(msg, inputs));
      LogIsFaithful(t, Last(t.history), msg, inputs);
    } else {
      RunAllOne(t, Message(msg, []));
    }
  }

  lemma {:induction false} SaveAllTracks(
      w: Service, msg: Msg, ids: seq<string>, attempts: seq<Attempt>, id: string, t: Track)
    requires Defined(w) && |ids| == |attempts| && Inv(t) && Tracks(t, w, id)
    ensures var w' := w.(states := SaveAll(w.states, w.twins, msg, ids, attempts).states);
            Tracks(RunAll(t, Served(w, msg, ids, attempts, id)), w', id)
    decreases |ids|
  {
    hide Inv, RunAll, SaveOne, Tracks, Reached;
    RunAllOne(t, Message(msg, []));
    if ids != [] {
      var s := SaveOne(w.states, w.twins, msg, ids[0], attempts[0]);
      var w1 := w.(states := s.states);
      var own := if ids[0] == id then Reached(w, msg, id, attempts[0]) else [];
      SaveOneTracks(w, msg, ids[0], attempts[0], id, t);
      RunAllConcat(t, own, []);
      assert own + [] == own;
      if s.err.None? {
        SaveAllTracks(w1, msg, ids[1..], attempts[1..], id, RunAll(t, own));
        RunAllConcat(t, own, Served(w1, msg, ids[1..], attempts[1..], id));
      }
    }
  }

  // One call takes a twin through its own events and nothing else.
  lemma NextTracks(w: Service, op: Op, id: string, t: Track)
    requires Defined(w) && Admissible(w, op) && Inv(t) && Tracks(t, w, id)
    ensures Inv(RunAll(t, OwnEvents(w, op, id))) && Tracks(RunAll(t, OwnEvents(w, op, id)), Next(w, op), id)
  {
    hide Inv, RunAll, SaveAll, Revise, NewTwin, Served;
    RunAllConcat(t, OwnEvents(w, op, id), []);
    match op
    case Add(_, _) => RunAllOne(t, Message(Msg("", ""), []));
    case Revision(change, def, defNow, now) => RunAllOne(t, Change(change, def, defNow, now));
    case Delivery(msg, ids, attempts) => SaveAllTracks(w, msg, ids, attempts, id, t);
  }

  // A run of the service takes a twin through the run of its own events.
  lemma {:induction false} RunTracks(w: Service, ops: seq<Op>, id: string, t: Track)
    requires Defined(w) && IsRun(w, ops) && Inv(t) && Tracks(t, w, id)
    ensures Inv(RunAll(t, EventsFrom(w, ops, id)))
    ensures Tracks(RunAll(t, EventsFrom(w, ops, id)), RunService(w, ops), id)
    decreases |ops|
  {
    hide Inv, RunAll, Next, Admissible, OwnEvents, Tracks;
    if ops == [] {
      RunAllOne(t, Message(Msg("", ""), []));
    } else {
      var own, w1 := OwnEvents(w, ops[0], id), Next(w, ops[0]);
      NextTracks(w, ops[0], id, t);
      RunTracks(w1, ops[1..], id, RunAll(t, own));
      RunAllConcat(t, own, EventsFrom(w1, ops[1..], id));
    }
  }

  // ----- from the empty service

  // What a twin was added with in a run.
  function OriginIn(ops: seq<Op>, id: string): Option<Origin> {
    if ops == [] then None
    else if ops[0].Add? && ops[0].id == id then Some(ops[0].origin)
    else OriginIn(ops[1..], id)
  }

  predicate Absent(w: Service, id: string) {
    id !in w.twins && id !in w.states
  }

  lemma {:induction false} AbsentIsNotServed(
      w: Service, msg: Msg, ids: seq<string>, attempts: seq<Attempt>, id: string)
    requires Defined(w) && |ids| == |attempts| && Absent(w, id)
    ensures id !in SaveAll(w.states, w.twins, msg, ids, attempts).states && Served(w, msg, ids, attempts, id) == []
    decreases |ids|
  {
    hide Deliver, Last;
    if ids != [] {
      var s := SaveOne(w.states, w.twins, msg, ids[0], attempts[0]);
      if s.err.None? { AbsentIsNotServed(w.(states := s.states), msg, ids[1..], attempts[1..], id); }
    }
  }

  lemma AbsentStays(w: Service, op: Op, id: string)
    requires Defined(w) && Admissible(w, op) && Absent(w, id) && !(op.Add? && op.id == id)
    ensures Absent(Next(w, op), id) && OwnEvents(w, op, id) == []
  {
    hide SaveAll, Served, Revise, NewTwin;
    if op.Delivery? { AbsentIsNotServed(w, op.msg, op.ids, op.attempts, id); }
  }

  // The run of one twin from where it was added.
  function TrackOf(id: string, o: Origin, events: seq<Event>): Track
    requires o.twin.definitions == []
  {
    EveryRun(o.twin, id, o.owner, o.def, o.now, o.defNow, []);
    RunAll(Added(o.twin, id, o.owner, o.def, o.now, o.defNow), events)
  }

  lemma {:induction false} RunFromAbsent(w: Service, ops: seq<Op>, id: string)
    requires Defined(w) && IsRun(w, ops) && Absent(w, id)
    ensures id in RunService(w, ops).twins <==> OriginIn(ops, id).Some?
    ensures OriginIn(ops, id).Some? ==>
              var o := OriginIn(ops, id).value;
              && o.twin.definitions == []
              && Inv(TrackOf(id, o, EventsFrom(w, ops, id)))
              && Tracks(TrackOf(id, o, EventsFrom(w, ops, id)), RunService(w, ops), id)
    decreases |ops|
  {
    hide Inv, RunAll, Tracks;
    if ops != [] {
      var op, w1 := ops[0], Next(w, ops[0]);
      if op.Add? && op.id == id {
        var o := op.origin;
        var t := Added(o.twin, id, o.owner, o.def, o.now, o.defNow);
        EveryRun(o.twin, id, o.owner, o.def, o.now, o.defNow, []);
        AddedTracks(w, id, o);
        RunTracks(w1, ops[1..], id, t);
        TracksPresent(RunAll(t, EventsFrom(w1, ops[1..], id)), RunService(w1, ops[1..]), id);
        assert EventsFrom(w, ops, id) == EventsFrom(w1, ops[1..], id);
      } else {
        hide Next, OwnEvents;
        AbsentStays(w, op, id);
        RunFromAbsent(w1, ops[1..], id);
        assert EventsFrom(w, ops, id) == EventsFrom(w1, ops[1..], id);
      }
    }
  }

  lemma AddedTracks(w: Service, id: string, o: Origin)
    requires Defined(w) && Absent(w, id) && o.twin.definitions == []
    ensures Tracks(Added(o.twin, id, o.owner, o.def, o.now, o.defNow), Next(w, Add(id, o)), id)
  {
  }

  lemma TracksPresent(t: Track, w: Service, id: string)
    requires Tracks(t, w, id)
    ensures id in w.twins
  {
  }

  // ----- the main results

  // After any run of the service a twin is there exactly if it was added, and its definitions, its states and
  // the records folded into them are those of the run of the events addressed to it: the revisions of its
  // definitions and the deliveries that reached it, in order. They are numbered, fitting and in their windows.
  lemma EveryTwin(ops: seq<Op>, id: string)
    requires IsRun(EMPTY, ops)
    ensures var w := RunService(EMPTY, ops);
            && (id in w.twins <==> OriginIn(ops, id).Some?)
            && (id in w.twins ==>
                  && OriginIn(ops, id).value.twin.definitions == []
                  && var t := TrackOf(id, OriginIn(ops, id).value, EventsFrom(EMPTY, ops, id));
                     Tracks(t, w, id) && InOrder(t.tw, t.history, t.log))
  {
    hide Inv, RunAll, Tracks, InOrder, RunService, IsRun, EventsFrom;
    RunFromAbsent(EMPTY, ops, id);
    if OriginIn(ops, id).Some? {
      var o := OriginIn(ops, id).value;
      EveryRun(o.twin, id, o.owner, o.def, o.now, o.defNow, EventsFrom(EMPTY, ops, id));
    }
  }

  lemma {:induction false} RunServiceConcat(w: Service, ops: seq<Op>, later: seq<Op>)
    requires Defined(w) && IsRun(w, ops) && IsRun(RunService(w, ops), later)
    ensures IsRun(w, ops + later) && RunService(w, ops + later) == RunService(RunService(w, ops), later)
    decreases |ops|
  {
    hide Next, Admissible;
    if ops == [] {
      assert ops + later == later;
    } else {
      RunServiceConcat(Next(w, ops[0]), ops[1..], later);
      assert (ops + later)[1..] == ops[1..] + later;
    }
  }

  // However the run of the service goes on, a twin's stored states keep their IDs and times, and all but the
  // newest are not touched again.
  lemma OnlyTheNewestChanges(ops: seq<Op>, later: seq<Op>, id: string)
    requires IsRun(EMPTY, ops) && IsRun(RunService(EMPTY, ops), later) && id in RunService(EMPTY, ops).twins
    ensures IsRun(EMPTY, ops + later)
    ensures Grown(History(RunService(EMPTY, ops).states, id), History(RunService(EMPTY, ops + later).states, id))
  {
    hide Inv, RunAll, RunService, IsRun, EventsFrom, Grown;
    RunServiceConcat(EMPTY, ops, later);
    RunFromAbsent(EMPTY, ops, id);
    var w, t := RunService(EMPTY, ops), TrackOf(id, OriginIn(ops, id).value, EventsFrom(EMPTY, ops, id));
    RunTracks(w, later, id, t);
    RunKeepsInv(t, EventsFrom(w, later, id));
  }
}
