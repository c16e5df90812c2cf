// The registry of CoAP observers and the threads that use it: subscribers, unsubscribers and the watchers
// that wait for a client to be done. Each `put` and `remove` holds the lock, so it is one step.
module CoapObservers {
  import opened Wrappers

  // Observers by endpoint and token. Observers are numbered in order of creation.
  type Table = map<string, map<string, nat>>

  function Lookup(table: Table, endpoint: string, token: string): Option<nat> {
    if endpoint in table && token in table[endpoint] then Some(table[endpoint][token]) else None
  }

  // What a locked operation does: the table after it, the observer it cancelled, and whether it failed.
  datatype Outcome = Outcome(table: Table, cancelled: Option<nat>, failed: bool)

  // `cancels` is the answer of the one `Cancel` call the operation may make.
  function Put(table: Table, endpoint: string, token: string, o: nat, cancels: bool): Outcome {
    if endpoint !in table then Outcome(table[endpoint := map[token := o]], None, false)
    else
      var current := Lookup(table, endpoint, token);
      if current.Some? && !cancels then Outcome(table, None, true)
      else
        var obs: map<string, nat> := table[endpoint][token := o];
        Outcome(table[endpoint := obs], current, false)
  }

  function Remove(table: Table, endpoint: string, token: string, cancels: bool): Outcome {
    if endpoint !in table then Outcome(table, None, false)
    else
      var current := Lookup(table, endpoint, token);
      if current.Some? && !cancels then Outcome(table, None, true)
      else
        var rest := table[endpoint] - {token};
        Outcome(if rest == map[] then table - {endpoint} else table[endpoint := rest], current, false)
  }

  class Registry {
    var observers: Table

    constructor ()
      ensures observers == map[]
    {
      observers := map[];
    }

    method PutObserver(endpoint: string, token: string, o: nat, cancels: bool)
      returns (cancelled: Option<nat>, failed: bool)
      modifies this
      ensures Outcome(observers, cancelled, failed) == Put(old(observers), endpoint, token, o, cancels)
    {
      cancelled, failed := None, false;
      if endpoint !in observers {
        observers := observers[endpoint := map[token := o]];
        return;
      }
      var obs := observers[endpoint];
      if token in obs {
        if !cancels {
          failed := true;
          return;
        }
        cancelled := Some(obs[token]);
      }
      obs := obs[token := o];
      observers := observers[endpoint := obs];
    }

    method RemoveObserver(endpoint: string, token: string, cancels: bool)
      returns (cancelled: Option<nat>, failed: bool)
      modifies this
      ensures Outcome(observers, cancelled, failed) == Remove(old(observers), endpoint, token, cancels)
    {
      cancelled, failed := None, false;
      if endpoint !in observers {
        return;
      }
      var obs := observers[endpoint];
      if token in obs {
        if !cancels {
          failed := true;
          return;
        }
        cancelled := Some(obs[token]);
      }
      obs := obs - {token};
      observers := observers[endpoint := obs];
      if |obs| == 0 {
        observers := observers - {endpoint};
        assert obs == map[] && observers == old(observers) - {endpoint};
      }
    }
  }

  // ----- the threads

  datatype Key = Key(endpoint: string, token: string)

  // A completed change of one entry.
  datatype Change = Placed(key: Key, o: nat) | Cleared(key: Key)

  datatype System = System(
    table: Table,
    inFlight: map<nat, Key>,      // created and not yet put
    watchers: multiset<Key>,      // waiting for their client to be done
    cancelled: multiset<nat>,     // successful cancellations
    lost: set<nat>,               // created, but refused by a put that could not cancel the entry in its way
    created: nat,
    changes: seq<Change>)

  const START := System(map[], map[], multiset{}, multiset{}, {}, 0, [])

  datatype Step =
    | Subscribe(key: Key)                      // the watcher starts and the observer is created
    | SubscribeFails(key: Key)                 // the watcher starts, creating the observer fails
    | PutStep(o: nat, cancels: bool)           // the subscriber's put
    | Unsubscribe(key: Key, cancels: bool)
    | WatcherFires(key: Key, cancels: bool)

  predicate Enabled(s: System, step: Step) {
    match step
    case PutStep(o, _) => o in s.inFlight
    case WatcherFires(key, _) => key in s.watchers
    case _ => true
  }

  function Note(cancelled: multiset<nat>, o: Option<nat>): multiset<nat> {
    match o case None => cancelled case Some(x) => cancelled + multiset{x}
  }

  function RemoveAt(s: System, key: Key, cancels: bool): System {
    var out := Remove(s.table, key.endpoint, key.token, cancels);
    s.(table := out.table, cancelled := Note(s.cancelled, out.cancelled),
       changes := if out.failed then s.changes else s.changes + [Cleared(key)])
  }

  function Next(s: System, step: Step): System
    requires Enabled(s, step)
  {
    match step
    case Subscribe(key) =>
      s.(watchers := s.watchers + multiset{key}, inFlight := s.inFlight[s.created := key], created := s.created + 1)
    case SubscribeFails(key) => s.(watchers := s.watchers + multiset{key})
    case PutStep(o, cancels) =>
      var key := s.inFlight[o];
      var out := Put(s.table, key.endpoint, key.token, o, cancels);
      s.(table := out.table, inFlight := s.inFlight - {o}, cancelled := Note(s.cancelled, out.cancelled),
         lost := if out.failed then s.lost + {o} else s.lost,
         changes := if out.failed then s.changes else s.changes + [Placed(key, o)])
    case Unsubscribe(key, cancels) => RemoveAt(s, key, cancels)
    case WatcherFires(key, cancels) => RemoveAt(s.(watchers := s.watchers - multiset{key}), key, cancels)
  }

  // Any interleaving: a sequence of steps, each enabled when it is taken.
  predicate IsRun(s: System, steps: seq<Step>)
    decreases |steps|
  {
    steps == [] || (Enabled(s, steps[0]) && IsRun(Next(s, steps[0]), steps[1..]))
  }

  function Run(s: System, steps: seq<Step>): System
    requires IsRun(s, steps)
    decreases |steps|
  {
    if steps == [] then s else Run(Next(s, steps[0]), steps[1..])
  }

  // ----- the invariant

  predicate At(s: System, e: string, t: string, o: nat) {
    Lookup(s.table, e, t) == Some(o)
  }

  ghost predicate InTable(s: System, o: nat) {
    exists e, t :: At(s, e, t, o)
  }

  // Each created observer is in exactly one place: in flight, in the table under exactly one endpoint and
  // token, cancelled exactly once, or lost.
  ghost predicate Accounted(s: System) {
    && (forall o: nat :: o in s.inFlight ==>
          o < s.created && !InTable(s, o) && s.cancelled[o] == 0 && o !in s.lost)
    && (forall e: string, t: string, o: nat :: At(s, e, t, o) ==>
          o < s.created && s.cancelled[o] == 0 && o !in s.lost)
    && (forall e: string, t: string, e': string, t': string, o: nat :: At(s, e, t, o) && At(s, e', t', o) ==>
          e == e' && t == t')
    && (forall o: nat :: o in s.cancelled ==> o < s.created && s.cancelled[o] == 1 && o !in s.lost)
    && (forall o: nat :: o in s.lost ==> o < s.created)
    && (forall o: nat :: o < s.created ==> o in s.inFlight || InTable(s, o) || s.cancelled[o] == 1 || o in s.lost)
  }

  predicate NoEmptyEndpoint(s: System) {
    forall e :: e in s.table ==> s.table[e] != map[]
  }

  // The entry for a key as the completed changes leave it: the last one decides.
  function LastChange(changes: seq<Change>, key: Key): Option<nat>
    decreases |changes|
  {
    if changes == [] then None
    else
      var c := changes[|changes| - 1];
      if c.key != key then LastChange(changes[..|changes| - 1], key)
      else if c.Placed? then Some(c.o) else None
  }

  // The map of maps is one flat register per key.
  ghost predicate Flat(s: System) {
    forall e: string, t: string :: Lookup(s.table, e, t) == LastChange(s.changes, Key(e, t))
  }

  ghost predicate Inv(s: System) {
    Accounted(s) && NoEmptyEndpoint(s) && Flat(s)
  }

  // ----- the table operations on one entry

  lemma PutLookup(table: Table, endpoint: string, token: string, o: nat, cancels: bool)
    ensures var out := Put(table, endpoint, token, o, cancels);
            && out.failed == (Lookup(table, endpoint, token).Some? && !cancels)
            && (out.failed ==> out.table == table && out.cancelled == None)
            && (!out.failed ==> out.cancelled == Lookup(table, endpoint, token))
            && forall e, t :: Lookup(out.table, e, t)
                 == if e == endpoint && t == token && !out.failed then Some(o) else Lookup(table, e, t)
  {
  }

  lemma RemoveLookup(table: Table, endpoint: string, token: string, cancels: bool)
    ensures var out := Remove(table, endpoint, token, cancels);
            && out.failed == (Lookup(table, endpoint, token).Some? && !cancels)
            && (out.failed ==> out.table == table && out.cancelled == None)
            && (!out.failed ==> out.cancelled == Lookup(table, endpoint, token))
            && forall e, t :: Lookup(out.table, e, t)
                 == if e == endpoint && t == token && !out.failed then None else Lookup(table, e, t)
  {
    var out := Remove(table, endpoint, token, cancels);
    if endpoint in table && !out.failed {
      var rest := table[endpoint] - {token};
      forall e, t
        ensures Lookup(out.table, e, t) == if e == endpoint && t == token then None else Lookup(table, e, t)
      {
        if e == endpoint && t != token && t in table[e] { assert t in rest; }
      }
    }
  }

  // ----- one step

  // The change a step makes to the entries: at most one key, from its old value to `value`.
  ghost predicate OneEntry(s: System, s': System, key: Key, value: Option<nat>) {
    forall e, t :: Lookup(s'.table, e, t)
      == if e == key.endpoint && t == key.token then value else Lookup(s.table, e, t)
  }

  lemma FlatGrows(s: System, s': System, key: Key, c: Change)
    requires Flat(s) && c.key == key && s'.changes == s.changes + [c]
    requires OneEntry(s, s', key, if c.Placed? then Some(c.o) else None)
    ensures Flat(s')
  {
    forall e: string, t: string ensures Lookup(s'.table, e, t) == LastChange(s'.changes, Key(e, t)) {
      assert s'.changes[..|s'.changes| - 1] == s.changes;
    }
  }

  lemma PutKeepsInv(s: System, o: nat, cancels: bool)
    requires Inv(s) && o in s.inFlight
    ensures Inv(Next(s, PutStep(o, cancels)))
  {
    hide Put, Lookup;
    var s' := Next(s, PutStep(o, cancels));
    var key := s.inFlight[o];
    PutLookup(s.table, key.endpoint, key.token, o, cancels);
    var out := Put(s.table, key.endpoint, key.token, o, cancels);
    PutKeepsShape(s.table, key.endpoint, key.token, o, cancels);
    if out.failed {
      SameEntriesAccounted(s, s', o);
    } else {
      assert At(s', key.endpoint, key.token, o);
      PlacedAccounted(s, s', o, key);
      FlatGrows(s, s', key, Placed(key, o));
    }
  }

  lemma PutKeepsShape(table: Table, endpoint: string, token: string, o: nat, cancels: bool)
    requires forall e :: e in table ==> table[e] != map[]
    ensures var out := Put(table, endpoint, token, o, cancels);
            forall e :: e in out.table ==> out.table[e] != map[]
  {
    var out := Put(table, endpoint, token, o, cancels);
    if !out.failed { assert token in out.table[endpoint]; }
  }

  // A refused put moves its observer from in flight to lost.
  lemma SameEntriesAccounted(s: System, s': System, o: nat)
    requires Accounted(s) && o in s.inFlight
    requires s'.table == s.table && s'.cancelled == s.cancelled && s'.created == s.created
    requires s'.inFlight == s.inFlight - {o} && s'.lost == s.lost + {o}
    ensures Accounted(s')
  {
    hide Lookup;
    SameTable(s, s');
    assert forall e: string, t: string, x: nat :: At(s', e, t, x) ==> At(s, e, t, x);
    assert !InTable(s, o);
    forall e: string, t: string, x: nat | At(s', e, t, x) ensures x != o {
      assert InTable(s', x);
    }
  }

  lemma SameTable(s: System, s': System)
    requires s'.table == s.table
    ensures forall x: nat :: InTable(s', x) <==> InTable(s, x)
  {
    hide Lookup;
    forall x: nat ensures InTable(s', x) <==> InTable(s, x) {
      if InTable(s, x) {
        var e, t :| At(s, e, t, x);
        assert At(s', e, t, x);
      }
      if InTable(s', x) {
        var e, t :| At(s', e, t, x);
        assert At(s, e, t, x);
      }
    }
  }

  // A completed put moves its observer into the table and the one it displaced to cancelled.
  lemma PlacedAccounted(s: System, s': System, o: nat, key: Key)
    requires Accounted(s) && o in s.inFlight
    requires OneEntry(s, s', key, Some(o))
    requires s'.cancelled == Note(s.cancelled, Lookup(s.table, key.endpoint, key.token))
    requires s'.created == s.created && s'.lost == s.lost && s'.inFlight == s.inFlight - {o}
    ensures Accounted(s')
  {
    hide Lookup;
    var displaced := Lookup(s.table, key.endpoint, key.token);
    assert At(s', key.endpoint, key.token, o);
    forall x: nat | x != o ensures InTable(s', x) <==> InTable(s, x) && displaced != Some(x) {
      EntryMoved(s, s', key, Some(o), x);
    }
    assert forall e: string, t: string, x: nat :: At(s', e, t, x) && x != o ==> At(s, e, t, x);
    forall e: string, t: string | At(s', e, t, o) ensures e == key.endpoint && t == key.token {
      assert !At(s, e, t, o) by { assert !InTable(s, o); }
    }
    if displaced.Some? { assert At(s, key.endpoint, key.token, displaced.value); }
  }

  // What is in the table after one entry has been given a value other than x.
  lemma EntryMoved(s: System, s': System, key: Key, value: Option<nat>, x: nat)
    requires Accounted(s) && OneEntry(s, s', key, value) && value != Some(x)
    ensures InTable(s', x) <==> InTable(s, x) && Lookup(s.table, key.endpoint, key.token) != Some(x)
  {
    hide Lookup;
    if InTable(s', x) {
      var e, t :| At(s', e, t, x);
      assert At(s, e, t, x);
      assert Lookup(s.table, key.endpoint, key.token) == Some(x) ==> At(s, key.endpoint, key.token, x);
    }
    if InTable(s, x) && Lookup(s.table, key.endpoint, key.token) != Some(x) {
      var e, t :| At(s, e, t, x);
      assert At(s', e, t, x);
    }
  }

  // A completed removal moves the observer of its entry, if there is one, to cancelled.
  lemma ClearedAccounted(s: System, s': System, key: Key)
    requires Accounted(s)
    requires OneEntry(s, s', key, None)
    requires s'.cancelled == Note(s.cancelled, Lookup(s.table, key.endpoint, key.token))
    requires s'.created == s.created && s'.lost == s.lost && s'.inFlight == s.inFlight
    ensures Accounted(s')
  {
    hide Lookup;
    var gone := Lookup(s.table, key.endpoint, key.token);
    forall x: nat ensures InTable(s', x) <==> InTable(s, x) && gone != Some(x) {
      EntryMoved(s, s', key, None, x);
    }
    assert forall e: string, t: string, x: nat :: At(s', e, t, x) ==> At(s, e, t, x);
    if gone.Some? { assert At(s, key.endpoint, key.token, gone.value); }
  }

  lemma RemoveKeepsInv(s: System, key: Key, cancels: bool)
    requires Inv(s)
    ensures Inv(RemoveAt(s, key, cancels))
  {
    hide Remove, Lookup;
    var s' := RemoveAt(s, key, cancels);
    RemoveLookup(s.table, key.endpoint, key.token, cancels);
    RemoveKeepsShape(s.table, key.endpoint, key.token, cancels);
    if Remove(s.table, key.endpoint, key.token, cancels).failed {
      assert s' == s;
    } else {
      ClearedAccounted(s, s', key);
      FlatGrows(s, s', key, Cleared(key));
    }
  }

  lemma RemoveKeepsShape(table: Table, endpoint: string, token: string, cancels: bool)
    requires forall e :: e in table ==> table[e] != map[]
    ensures var out := Remove(table, endpoint, token, cancels);
            forall e :: e in out.table ==> out.table[e] != map[]
  {
  }

  lemma SubscribeKeepsInv(s: System, key: Key)
    requires Inv(s)
    ensures Inv(Next(s, Subscribe(key)))
  {
    hide Lookup;
    var s' := Next(s, Subscribe(key));
    SameTable(s, s');
    assert forall e: string, t: string, o: nat :: At(s', e, t, o) ==> At(s, e, t, o);
    assert !InTable(s', s.created);
  }

  lemma StepKeepsInv(s: System, step: Step)
    requires Inv(s) && Enabled(s, step)
    ensures Inv(Next(s, step))
  {
    match step
    case Subscribe(key) => SubscribeKeepsInv(s, key);
    case SubscribeFails(key) => WatchersAreIrrelevant(s, s.(watchers := s.watchers + multiset{key}));
    case PutStep(o, cancels) => PutKeepsInv(s, o, cancels);
    case Unsubscribe(key, cancels) => RemoveKeepsInv(s, key, cancels);
    case WatcherFires(key, cancels) =>
      var s1 := s.(watchers := s.watchers - multiset{key});
      WatchersAreIrrelevant(s, s1);
      RemoveKeepsInv(s1, key, cancels);
  }

  lemma WatchersAreIrrelevant(s: System, s': System)
    requires Inv(s) && s' == s.(watchers := s'.watchers)
    ensures Inv(s')
  {
    hide Lookup;
    SameTable(s, s');
    assert forall e: string, t: string, o: nat :: At(s', e, t, o) ==> At(s, e, t, o);
  }

  // ----- the main results

  // Over every interleaving each observer is accounted for, no endpoint is left with an empty table, and
  // the nested table is the flat one in which the last completed change of a key decides.
  lemma {:induction false} RunKeepsInv(s: System, steps: seq<Step>)
    requires Inv(s) && IsRun(s, steps)
    ensures Inv(Run(s, steps))
    decreases |steps|
  {
    hide Inv, Next, Enabled;
    if steps != [] {
      StepKeepsInv(s, steps[0]);
      RunKeepsInv(Next(s, steps[0]), steps[1..]);
    }
  }

  lemma StartIsValid()
    ensures Inv(START)
  {
  }

  predicate Cancels(step: Step) {
    match step
    case PutStep(_, cancels) => cancels
    case Unsubscribe(_, cancels) => cancels
    case WatcherFires(_, cancels) => cancels
    case _ => true
  }

  // A put that cannot cancel the observer in the way of its own.
  predicate RefusedPut(s: System, step: Step, o: nat)
    requires Enabled(s, step)
  {
    step == PutStep(o, false) && Lookup(s.table, s.inFlight[o].endpoint, s.inFlight[o].token).Some?
  }

  // Somewhere in the run the put of o is refused.
  predicate Refused(s: System, steps: seq<Step>, o: nat)
    requires IsRun(s, steps)
    decreases |steps|
  {
    steps != [] && (RefusedPut(s, steps[0], o) || Refused(Next(s, steps[0]), steps[1..], o))
  }

  lemma StepLosesIff(s: System, step: Step, o: nat)
    requires Enabled(s, step)
    ensures o in Next(s, step).lost <==> o in s.lost || RefusedPut(s, step, o)
  {
  }

  // An observer is lost exactly by a put that is refused.
  lemma {:induction false} LostIff(s: System, steps: seq<Step>, o: nat)
    requires IsRun(s, steps)
    ensures o in Run(s, steps).lost <==> o in s.lost || Refused(s, steps, o)
    decreases |steps|
  {
    hide Next, Enabled, RefusedPut;
    if steps != [] {
      StepLosesIff(s, steps[0], o);
      LostIff(Next(s, steps[0]), steps[1..], o);
    }
  }

  // Every put can cancel the observer it displaces; removals may fail.
  predicate PutsCancel(steps: seq<Step>) {
    forall i :: 0 <= i < |steps| && steps[i].PutStep? ==> steps[i].cancels
  }

  lemma {:induction false} NothingLost(s: System, steps: seq<Step>)
    requires IsRun(s, steps) && PutsCancel(steps)
    ensures Run(s, steps).lost == s.lost
    decreases |steps|
  {
    if steps != [] {
      var s' := Next(s, steps[0]);
      assert s'.lost == s.lost by { LostOnlyByPut(s, steps[0]); }
      NothingLost(s', steps[1..]);
    }
  }

  lemma LostOnlyByPut(s: System, step: Step)
    requires Enabled(s, step) && (step.PutStep? ==> step.cancels)
    ensures Next(s, step).lost == s.lost
  {
  }

  // In any run, whatever fails, each observer ever created is in flight, registered exactly once, cancelled
  // exactly once or was refused by its put, and only one of these.
  lemma EveryObserverAccounted(steps: seq<Step>, o: nat)
    requires IsRun(START, steps) && o < Run(START, steps).created
    ensures var s := Run(START, steps);
            && (forall e, t, e', t' :: At(s, e, t, o) && At(s, e', t', o) ==> e == e' && t == t')
            && (o in s.inFlight ==> !InTable(s, o) && s.cancelled[o] == 0 && !Refused(START, steps, o))
            && (InTable(s, o) ==> s.cancelled[o] == 0 && !Refused(START, steps, o))
            && (o in s.cancelled ==> s.cancelled[o] == 1 && !Refused(START, steps, o))
            && (o in s.inFlight || InTable(s, o) || o in s.cancelled || Refused(START, steps, o))
            && NoEmptyEndpoint(s)
  {
    hide Refused, Run, IsRun, Lookup;
    StartIsValid();
    RunKeepsInv(START, steps);
    LostIff(START, steps, o);
    var s := Run(START, steps);
    if InTable(s, o) {
      var e, t :| At(s, e, t, o);
    }
  }

  // When every put can cancel what it displaces, each observer ever created is in flight, registered exactly
  // once or cancelled exactly once, and only one of these.
  lemma Conservation(steps: seq<Step>, o: nat)
    requires IsRun(START, steps) && PutsCancel(steps) && o < Run(START, steps).created
    ensures var s := Run(START, steps);
            && (forall e, t, e', t' :: At(s, e, t, o) && At(s, e', t', o) ==> e == e' && t == t')
            && ((o in s.inFlight && !InTable(s, o) && s.cancelled[o] == 0)
                || (o !in s.inFlight && InTable(s, o) && s.cancelled[o] == 0)
                || (o !in s.inFlight && !InTable(s, o) && s.cancelled[o] == 1))
            && NoEmptyEndpoint(s)
  {
    hide Run, IsRun, Lookup;
    StartIsValid();
    RunKeepsInv(START, steps);
    NothingLost(START, steps);
    var s := Run(START, steps);
    if InTable(s, o) {
      var e, t :| At(s, e, t, o);
    }
  }

  function KeyOf(s: System, step: Step): Key
    requires Enabled(s, step)
  {
    match step
    case Subscribe(key) => key
    case SubscribeFails(key) => key
    case PutStep(o, _) => s.inFlight[o]
    case Unsubscribe(key, _) => key
    case WatcherFires(key, _) => key
  }

  // An operation whose `Cancel` fails leaves the table as it was.
  lemma FailureChangesNothing(s: System, step: Step)
    requires Enabled(s, step) && !Cancels(step)
    requires Lookup(s.table, KeyOf(s, step).endpoint, KeyOf(s, step).token).Some?
    ensures Next(s, step).table == s.table && Next(s, step).cancelled == s.cancelled
  {
  }

  // Steps that operate on the table entry of their key.
  predicate Touches(s: System, step: Step, key: Key)
    requires Enabled(s, step)
  {
    !step.Subscribe? && !step.SubscribeFails? && KeyOf(s, step) == key
  }

  // A registered observer stays exactly as long as no operation on its endpoint and token gets its
  // cancellation through.
  lemma StaysRegisteredIff(s: System, step: Step, e: string, t: string, o: nat)
    requires Inv(s) && Enabled(s, step) && At(s, e, t, o)
    ensures At(Next(s, step), e, t, o) <==> !(Touches(s, step, Key(e, t)) && Cancels(step))
  {
    hide Put, Remove, Lookup;
    match step
    case PutStep(p, cancels) =>
      var key := s.inFlight[p];
      PutLookup(s.table, key.endpoint, key.token, p, cancels);
      assert InTable(s, o);
    case Unsubscribe(key, cancels) => RemoveLookup(s.table, key.endpoint, key.token, cancels);
    case WatcherFires(key, cancels) => RemoveLookup(s.table, key.endpoint, key.token, cancels);
    case _ =>
  }

  // ----- watchers

  // How many watchers were started for a key, and how many fired.
  function Started(steps: seq<Step>, key: Key): nat {
    if steps == [] then 0
    else
      var one := (steps[0].Subscribe? || steps[0].SubscribeFails?) && steps[0].key == key;
      (if one then 1 else 0) + Started(steps[1..], key)
  }

  function Fired(steps: seq<Step>, key: Key): nat {
    if steps == [] then 0
    else (if steps[0].WatcherFires? && steps[0].key == key then 1 else 0) + Fired(steps[1..], key)
  }

  lemma StepWatchers(s: System, step: Step, key: Key)
    requires Enabled(s, step)
    ensures Next(s, step).watchers[key] + Fired([step], key) == s.watchers[key] + Started([step], key)
  {
    hide Put, Remove;
    assert [step][1..] == [];
    assert Started([step][1..], key) == 0 && Fired([step][1..], key) == 0;
  }

  lemma {:induction false} RunWatchers(s: System, steps: seq<Step>, key: Key)
    requires IsRun(s, steps)
    ensures Run(s, steps).watchers[key] + Fired(steps, key) == s.watchers[key] + Started(steps, key)
    decreases |steps|
  {
    hide Next, Enabled;
    if steps != [] {
      StepWatchers(s, steps[0], key);
      assert [steps[0]][1..] == [];
      assert Started([steps[0]][1..], key) == 0 && Fired([steps[0]][1..], key) == 0;
      RunWatchers(Next(s, steps[0]), steps[1..], key);
    }
  }

  // Nobody waits any more for the client of a registered observer.
  predicate Unwatched(s: System, e: string, t: string, o: nat) {
    At(s, e, t, o) && Key(e, t) !in s.watchers
  }

  // That is so exactly when as many watchers of its key have fired as subscriptions, failed ones included, have
  // started one.
  lemma UnwatchedIff(steps: seq<Step>, e: string, t: string, o: nat)
    requires IsRun(START, steps) && At(Run(START, steps), e, t, o)
    ensures Unwatched(Run(START, steps), e, t, o) <==> Fired(steps, Key(e, t)) == Started(steps, Key(e, t))
  {
    hide Run, IsRun, Started, Fired;
    RunWatchers(START, steps, Key(e, t));
  }

  // A watcher that fires before its subscriber's put finds nothing to remove, and the observer stays.
  lemma WatcherFiresTooEarly(key: Key)
    ensures var steps := [Subscribe(key), WatcherFires(key, true), PutStep(0, true)];
            && IsRun(START, steps)
            && var s := Run(START, steps);
               Unwatched(s, key.endpoint, key.token, 0) && s.watchers == multiset{} && s.inFlight == map[]
  {
    var a, b, c := Subscribe(key), WatcherFires(key, true), PutStep(0, true);
    var s1 := START.(watchers := multiset{key}, inFlight := map[0 := key], created := 1);
    var s2 := s1.(watchers := multiset{}, changes := [Cleared(key)]);
    assert Next(START, a) == s1 && Next(s1, b) == s2;
    PutUnwatched(key, s2);
    hide Next, Run, IsRun;
    RunThree(START, a, b, c, s1, s2, Next(s2, c));
  }

  lemma PutUnwatched(key: Key, s: System)
    requires s == START.(inFlight := map[0 := key], created := 1, changes := [Cleared(key)])
    ensures Next(s, PutStep(0, true)) == Registered(key, 0, multiset{}, multiset{}, [Cleared(key), Placed(key, 0)])
  {
    assert s.inFlight - {0} == map[];
  }

  lemma RunThree(s: System, a: Step, b: Step, c: Step, s1: System, s2: System, s3: System)
    requires Enabled(s, a) && Next(s, a) == s1 && Enabled(s1, b) && Next(s1, b) == s2
    requires Enabled(s2, c) && Next(s2, c) == s3
    ensures IsRun(s, [a, b, c]) && Run(s, [a, b, c]) == s3
  {
    hide Next, Enabled;
    assert [a, b, c][1..] == [b, c];
    assert [b, c][1..] == [c];
    assert [c][1..] == [];
    assert IsRun(s2, [c]) && Run(s2, [c]) == s3;
    assert IsRun(s1, [b, c]) && Run(s1, [b, c]) == s3;
  }

  // Two subscriptions under one key: the second observer replaces and cancels the first.
  function TwoSubscriptions(key: Key): seq<Step> {
    [Subscribe(key), PutStep(0, true), Subscribe(key), PutStep(1, true)]
  }

  function Registered(
      key: Key, o: nat, waiting: multiset<Key>, cancelled: multiset<nat>, changes: seq<Change>)
    : System
  {
    var obs: map<string, nat> := map[key.token := o];
    System(map[key.endpoint := obs], map[], waiting, cancelled, {}, o + 1, changes)
  }

  lemma FirstRegisters(key: Key) returns (s1: System)
    ensures Next(START, Subscribe(key)) == s1 && 0 in s1.inFlight
    ensures Next(s1, PutStep(0, true)) == Registered(key, 0, multiset{key}, multiset{}, [Placed(key, 0)])
  {
    s1 := START.(watchers := multiset{key}, inFlight := map[0 := key], created := 1);
    assert s1.inFlight - {0} == map[];
  }

  lemma SecondSubscribes(key: Key) returns (s3: System)
    ensures var s2 := Registered(key, 0, multiset{key}, multiset{}, [Placed(key, 0)]);
            && Next(s2, Subscribe(key)) == s3
            && s3 == s2.(watchers := multiset{key, key}, inFlight := map[1 := key], created := 2)
  {
    s3 := Next(Registered(key, 0, multiset{key}, multiset{}, [Placed(key, 0)]), Subscribe(key));
  }

  lemma SecondRegisters(key: Key) returns (s3: System)
    ensures var s2 := Registered(key, 0, multiset{key}, multiset{}, [Placed(key, 0)]);
            Next(s2, Subscribe(key)) == s3 && 1 in s3.inFlight
    ensures Next(s3, PutStep(1, true))
         == Registered(key, 1, multiset{key, key}, multiset{0}, [Placed(key, 0), Placed(key, 1)])
  {
    var s2 := Registered(key, 0, multiset{key}, multiset{}, [Placed(key, 0)]);
    s3 := SecondSubscribes(key);
    assert s3.inFlight - {1} == map[];
    var obs: map<string, nat> := map[key.token := 1];
    assert s2.table[key.endpoint][key.token := 1] == obs;
  }

  lemma SecondReplacesFirst(key: Key)
    ensures IsRun(START, TwoSubscriptions(key))
    ensures Run(START, TwoSubscriptions(key))
         == Registered(key, 1, multiset{key, key}, multiset{0}, [Placed(key, 0), Placed(key, 1)])
  {
    hide Next, Run, IsRun, Registered;
    var s1 := FirstRegisters(key);
    var s3 := SecondRegisters(key);
    RunFour(START, Subscribe(key), PutStep(0, true), Subscribe(key), PutStep(1, true),
            s1, Registered(key, 0, multiset{key}, multiset{}, [Placed(key, 0)]), s3,
            Registered(key, 1, multiset{key, key}, multiset{0}, [Placed(key, 0), Placed(key, 1)]));
  }

  lemma RunFour(s: System, a: Step, b: Step, c: Step, d: Step, s1: System, s2: System, s3: System, s4: System)
    requires Enabled(s, a) && Next(s, a) == s1 && Enabled(s1, b) && Next(s1, b) == s2
    requires Enabled(s2, c) && Next(s2, c) == s3 && Enabled(s3, d) && Next(s3, d) == s4
    ensures IsRun(s, [a, b, c, d]) && Run(s, [a, b, c, d]) == s4
  {
    hide Next, Enabled;
    assert [a, b, c, d][1..] == [b, c, d];
    assert [b, c, d][1..] == [c, d];
    assert [c, d][1..] == [d];
    assert [d][1..] == [];
    assert IsRun(s3, [d]) && Run(s3, [d]) == s4;
    assert IsRun(s2, [c, d]) && Run(s2, [c, d]) == s4;
    assert IsRun(s1, [b, c, d]) && Run(s1, [b, c, d]) == s4;
  }

  // A second subscription whose put cannot cancel the first observer.
  function RefusedReplacement(key: Key): seq<Step> {
    [Subscribe(key), PutStep(0, true), Subscribe(key), PutStep(1, false)]
  }

  // Its observer is neither registered nor cancelled: it is lost.
  lemma RefusedObserverIsLost(key: Key)
    ensures IsRun(START, RefusedReplacement(key))
    ensures var s := Run(START, RefusedReplacement(key));
            && s.created == 2 && 1 in s.lost && 1 !in s.inFlight && !InTable(s, 1) && 1 !in s.cancelled
            && At(s, key.endpoint, key.token, 0)
  {
    var s1 := FirstRegisters(key);
    var s2 := Registered(key, 0, multiset{key}, multiset{}, [Placed(key, 0)]);
    var s3 := SecondSubscribes(key);
    var s4 := s3.(inFlight := map[], lost := {1});
    assert s3.inFlight - {1} == map[];
    assert Next(s3, PutStep(1, false)) == s4;
    RunFour(START, Subscribe(key), PutStep(0, true), Subscribe(key), PutStep(1, false), s1, s2, s3, s4);
    assert s4.table == s2.table;
  }

  // Entries are removed by key, not by observer: the watcher of the client that was replaced, still waiting,
  // takes away the replacement.
  lemma ReplacementRemovedByOldWatcher(key: Key)
    ensures IsRun(START, TwoSubscriptions(key))
    ensures var s := Run(START, TwoSubscriptions(key));
            && At(s, key.endpoint, key.token, 1)
            && Enabled(s, WatcherFires(key, true))
            && !InTable(Next(s, WatcherFires(key, true)), 1)
            && Next(s, WatcherFires(key, true)).watchers == multiset{key}
  {
    hide Run, IsRun, Registered, Next;
    SecondReplacesFirst(key);
    OldWatcherFires(key);
  }

  lemma OldWatcherFires(key: Key)
    ensures var s := Registered(key, 1, multiset{key, key}, multiset{0}, [Placed(key, 0), Placed(key, 1)]);
            && At(s, key.endpoint, key.token, 1)
            && Enabled(s, WatcherFires(key, true))
            && !InTable(Next(s, WatcherFires(key, true)), 1)
            && Next(s, WatcherFires(key, true)).watchers == multiset{key}
  {
    var s := Registered(key, 1, multiset{key, key}, multiset{0}, [Placed(key, 0), Placed(key, 1)]);
    var obs: map<string, nat> := map[key.token := 1];
    assert s.table[key.endpoint] == obs && obs - {key.token} == map[];
    assert s.table - {key.endpoint} == map[];
  }
}
