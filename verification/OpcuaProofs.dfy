// Browsing lists the bounded walks of the reference graph, each once, in depth-first order.
module OpcuaProofs {
  import opened Wrappers
  import opened OpcuaBrowse

  // ----- walks, independently of browsing

  // An attribute that need not be there.
  predicate GoodOrAbsent(st: Status) {
    st == Good || st == BadAttributeIDInvalid
  }

  // A node that can be browsed: its class and name are there, its other attributes are or are absent, and all
  // three kinds of references can be read.
  predicate Readable(sv: Server, id: string) {
    && id in sv && sv[id].classStatus == Good && sv[id].nameStatus == Good
    && GoodOrAbsent(sv[id].descriptionStatus) && GoodOrAbsent(sv[id].accessStatus) && GoodOrAbsent(sv[id].typeStatus)
    && sv[id].hasComponent.Some? && sv[id].organizes.Some? && sv[id].hasProperty.Some?
  }

  // The entry of such a node under the path of its parent: what could be read of it, and blanks for the rest.
  // The second lowest bit of the access level is the permission to write.
  function Entry(sv: Server, id: string, path: string): NodeDef
    requires Readable(sv, id)
  {
    var n := sv[id];
    var there := n.accessStatus == Good;
    NodeDef(
      id, n.nodeClass, n.name,
      if n.descriptionStatus == Good then n.description else "",
      if there then n.access else 0,
      there && n.access % 4 in {2, 3},
      if n.typeStatus == Good then TypeName(n.dataType) else "",
      if path == "" then n.name else path + "." + n.name)
  }

  // The names of the standard data types by identifier.
  const TYPES: seq<(nat, string)> := [
    (1, "bool"), (2, "int8"), (3, "byte"), (4, "int16"), (5, "uint16"), (6, "int32"), (7, "uint32"),
    (10, "float32"), (11, "float64"), (12, "string"), (13, "time.Time"), (294, "time.Time")]

  predicate Names(id: DataTypeID, name: string) {
    if exists i :: 0 <= i < |TYPES| && TYPES[i].0 == id.intID then (id.intID, name) in TYPES else name == id.text
  }

  lemma TypeNameIff(id: DataTypeID, name: string)
    ensures TypeName(id) == name <==> Names(id, name)
  {
    if i :| 0 <= i < |TYPES| && TYPES[i].0 == id.intID {
      assert TYPES[i] == (id.intID, TypeName(id));
    } else {
      NotATypeCode(id);
    }
  }

  lemma NotATypeCode(id: DataTypeID)
    requires forall i :: 0 <= i < |TYPES| ==> TYPES[i].0 != id.intID
    ensures TypeName(id) == id.text
  {
    assert TYPES[0].0 == 1 && TYPES[1].0 == 2 && TYPES[2].0 == 3 && TYPES[3].0 == 4 && TYPES[4].0 == 5;
    assert TYPES[5].0 == 6 && TYPES[6].0 == 7 && TYPES[7].0 == 10 && TYPES[8].0 == 11 && TYPES[9].0 == 12;
    assert TYPES[10].0 == 13 && TYPES[11].0 == 294;
  }

  function Edges(sv: Server, id: string): seq<string>
    requires Readable(sv, id)
  {
    sv[id].hasComponent.value + (sv[id].organizes.value + sv[id].hasProperty.value)
  }

  // The path under which the references of a node are browsed.
  function Inner(sv: Server, id: string, path: string): string
    requires Readable(sv, id)
  {
    if path == "" then sv[id].name else path + "." + sv[id].name
  }

  // A walk names the reference to follow at each node; its end, if every node on the way can be browsed.
  type Walk = seq<nat>

  function End(sv: Server, id: string, w: Walk): Option<string>
    decreases |w|
  {
    if w == [] then Some(id)
    else if !Readable(sv, id) || w[0] >= |Edges(sv, id)| then None
    else End(sv, Edges(sv, id)[w[0]], w[1..])
  }

  // Walks of at most n references that end in a variable, and walks of that length that cannot go on reading.
  predicate ReachesVariable(sv: Server, id: string, w: Walk, n: nat) {
    |w| <= n && End(sv, id, w).Some?
    && var e := End(sv, id, w).value; Readable(sv, e) && sv[e].nodeClass == 2
  }

  predicate ReachesUnreadable(sv: Server, id: string, w: Walk, n: nat) {
    |w| <= n && End(sv, id, w).Some? && !Readable(sv, End(sv, id, w).value)
  }

  // What browsing says of the end of a walk: its definition, with the names met on the way as path.
  function DefAt(sv: Server, id: string, path: string, w: Walk): Option<NodeDef>
    decreases |w|
  {
    if !Readable(sv, id) then None
    else if w == [] then Some(Entry(sv, id, path))
    else if w[0] >= |Edges(sv, id)| then None
    else DefAt(sv, Edges(sv, id)[w[0]], Inner(sv, id, path), w[1..])
  }

  // Depth-first order: a walk comes before its continuations and before walks that turn off later.
  predicate Before(u: Walk, v: Walk)
    decreases |u|
  {
    v != [] && (u == [] || u[0] < v[0] || (u[0] == v[0] && Before(u[1..], v[1..])))
  }

  ghost predicate InOrder(ws: seq<Walk>) {
    forall i, j :: 0 <= i < j < |ws| ==> Before(ws[i], ws[j])
  }

  // ----- the list of walks, and what it contains

  function Prefix(k: nat, ws: seq<Walk>): (r: seq<Walk>)
    ensures |r| == |ws| && forall i :: 0 <= i < |ws| ==> r[i] == [k] + ws[i]
  {
    seq(|ws|, i requires 0 <= i < |ws| => [k] + ws[i])
  }

  lemma InPrefix(k: nat, ws: seq<Walk>, w: Walk)
    requires w != [] && w[0] == k && w[1..] in ws
    ensures w in Prefix(k, ws)
  {
    var i :| 0 <= i < |ws| && ws[i] == w[1..];
    assert Prefix(k, ws)[i] == w;
  }

  function Walks(sv: Server, id: string, n: nat): seq<Walk>
    decreases n, 0
  {
    if !Readable(sv, id) then []
    else
      (if sv[id].nodeClass == NODE_CLASS_VARIABLE then [[]] else [])
      + (if n == 0 then [] else WalksFrom(sv, Edges(sv, id), 0, n - 1))
  }

  function WalksFrom(sv: Server, es: seq<string>, k: nat, n: nat): seq<Walk>
    requires k <= |es|
    decreases n, |es| - k + 1
  {
    if k == |es| then [] else Prefix(k, Walks(sv, es[k], n)) + WalksFrom(sv, es, k + 1, n)
  }

  lemma FirstStep(sv: Server, id: string, n: nat, w: Walk)
    requires ReachesVariable(sv, id, w, n) && w != []
    ensures n > 0 && Readable(sv, id) && w[0] < |Edges(sv, id)|
    ensures ReachesVariable(sv, Edges(sv, id)[w[0]], w[1..], n - 1)
  {
    hide Readable, Edges;
  }

  lemma NoStep(sv: Server, id: string, n: nat)
    requires ReachesVariable(sv, id, [], n)
    ensures [] in Walks(sv, id, n)
  {
    hide WalksFrom;
    assert Walks(sv, id, n)[0] == [];
  }

  lemma WalksBelow(sv: Server, id: string, n: nat, w: Walk)
    requires n > 0 && Readable(sv, id) && w in WalksFrom(sv, Edges(sv, id), 0, n - 1)
    ensures w in Walks(sv, id, n)
  {
    hide WalksFrom, Readable, Edges;
  }

  lemma {:induction false} WalksComplete(sv: Server, id: string, n: nat, w: Walk)
    requires ReachesVariable(sv, id, w, n)
    ensures w in Walks(sv, id, n)
    decreases n, 0
  {
    hide ReachesVariable, Readable, Edges, Walks, WalksFrom;
    if w == [] {
      NoStep(sv, id, n);
    } else {
      FirstStep(sv, id, n, w);
      var es := Edges(sv, id);
      WalksComplete(sv, es[w[0]], n - 1, w[1..]);
      WalksFromComplete(sv, es, 0, n - 1, w);
      WalksBelow(sv, id, n, w);
    }
  }

  lemma {:induction false} WalksFromComplete(sv: Server, es: seq<string>, k: nat, n: nat, w: Walk)
    requires k <= |es| && w != [] && k <= w[0] < |es| && w[1..] in Walks(sv, es[w[0]], n)
    ensures w in WalksFrom(sv, es, k, n)
    decreases |es| - k
  {
    hide Walks, Prefix;
    if w[0] == k {
      InPrefix(k, Walks(sv, es[k], n), w);
    } else {
      WalksFromComplete(sv, es, k + 1, n, w);
    }
  }

  lemma {:induction false} WalksSound(sv: Server, id: string, n: nat, w: Walk)
    requires w in Walks(sv, id, n)
    ensures ReachesVariable(sv, id, w, n)
    decreases n, 0
  {
    if w != [] {
      WalksFromSound(sv, Edges(sv, id), 0, n - 1, w);
    } else if n > 0 && sv[id].nodeClass != NODE_CLASS_VARIABLE {
      WalksFromSound(sv, Edges(sv, id), 0, n - 1, w);
    }
  }

  lemma {:induction false} WalksFromSound(sv: Server, es: seq<string>, k: nat, n: nat, w: Walk)
    requires k <= |es| && w in WalksFrom(sv, es, k, n)
    ensures w != [] && k <= w[0] < |es| && ReachesVariable(sv, es[w[0]], w[1..], n)
    decreases n, |es| - k + 1
  {
    var ws := Walks(sv, es[k], n);
    if w in Prefix(k, ws) {
      var i :| 0 <= i < |ws| && Prefix(k, ws)[i] == w;
      assert w[1..] == ws[i];
      WalksSound(sv, es[k], n, ws[i]);
    } else {
      WalksFromSound(sv, es, k + 1, n, w);
    }
  }

  lemma OrderConcat(a: seq<Walk>, b: seq<Walk>)
    requires InOrder(a) && InOrder(b)
    requires forall u, v :: u in a && v in b ==> Before(u, v)
    ensures InOrder(a + b)
  {
  }

  lemma OrderPrefix(k: nat, ws: seq<Walk>)
    requires InOrder(ws)
    ensures InOrder(Prefix(k, ws))
  {
    var ps := Prefix(k, ws);
    forall i, j | 0 <= i < j < |ps| ensures Before(ps[i], ps[j]) {
      assert ps[i][1..] == ws[i] && ps[j][1..] == ws[j];
    }
  }

  lemma {:induction false} WalksInOrder(sv: Server, id: string, n: nat)
    ensures InOrder(Walks(sv, id, n))
    decreases n, 0
  {
    if Readable(sv, id) && n > 0 {
      var es := Edges(sv, id);
      WalksFromInOrder(sv, es, 0, n - 1);
      var self: seq<Walk> := if sv[id].nodeClass == NODE_CLASS_VARIABLE then [[]] else [];
      forall u, v | u in self && v in WalksFrom(sv, es, 0, n - 1) ensures Before(u, v) {
        WalksFromSound(sv, es, 0, n - 1, v);
      }
      OrderConcat(self, WalksFrom(sv, es, 0, n - 1));
    }
  }

  lemma {:induction false} WalksFromInOrder(sv: Server, es: seq<string>, k: nat, n: nat)
    requires k <= |es|
    ensures InOrder(WalksFrom(sv, es, k, n))
    decreases n, |es| - k + 1
  {
    if k < |es| {
      WalksInOrder(sv, es[k], n);
      WalksFromInOrder(sv, es, k + 1, n);
      var a, b := Prefix(k, Walks(sv, es[k], n)), WalksFrom(sv, es, k + 1, n);
      OrderPrefix(k, Walks(sv, es[k], n));
      forall u, v | u in a && v in b ensures Before(u, v) {
        WalksFromSound(sv, es, k + 1, n, v);
      }
      OrderConcat(a, b);
    }
  }

  // ----- browsing against the list of walks

  function Defs(sv: Server, id: string, path: string, ws: seq<Walk>): seq<Option<NodeDef>> {
    seq(|ws|, i requires 0 <= i < |ws| => DefAt(sv, id, path, ws[i]))
  }

  function Somes(nodes: seq<NodeDef>): (r: seq<Option<NodeDef>>)
    ensures |r| == |nodes| && forall i :: 0 <= i < |nodes| ==> r[i] == Some(nodes[i])
  {
    seq(|nodes|, i requires 0 <= i < |nodes| => Some(nodes[i]))
  }

  lemma {:induction false} EachConcat(sv: Server, a: seq<string>, b: seq<string>, path: string, level: nat)
    ensures BrowseEach(sv, a + b, path, level) == Then(BrowseEach(sv, a, path, level), BrowseEach(sv, b, path, level))
    decreases |a|
  {
    hide Browse;
    if a == [] {
      assert a + b == b;
      var r := BrowseEach(sv, b, path, level);
      if r.Ok? { assert [] + r.value == r.value; }
    } else {
      assert (a + b)[1..] == a[1..] + b;
      EachConcat(sv, a[1..], b, path, level);
      ThenAssociates(Browse(sv, a[0], path, level), BrowseEach(sv, a[1..], path, level),
                     BrowseEach(sv, b, path, level));
    }
  }

  lemma ThenAssociates(a: Result<seq<NodeDef>>, b: Result<seq<NodeDef>>, c: Result<seq<NodeDef>>)
    ensures Then(Then(a, b), c) == Then(a, Then(b, c))
  {
    if a.Ok? && b.Ok? && c.Ok? {
      assert a.value + b.value + c.value == a.value + (b.value + c.value);
    }
  }

  // A readable node gives itself, if it is a variable, and then what all its references give, in order.
  lemma BrowseReadable(sv: Server, id: string, path: string, level: nat)
    requires level <= MAX_CHILDRENS && Readable(sv, id)
    ensures var def := ReadDef(sv, id, path).value;
            Browse(sv, id, path, level)
            == Then(Ok(if def.nodeClass == NODE_CLASS_VARIABLE then [def] else []),
                    BrowseEach(sv, Edges(sv, id), def.path, level + 1))
  {
    hide BrowseEach;
    var def := ReadDef(sv, id, path).value;
    var n := sv[id];
    EachConcat(sv, n.organizes.value, n.hasProperty.value, def.path, level + 1);
    EachConcat(sv, n.hasComponent.value, n.organizes.value + n.hasProperty.value, def.path, level + 1);
  }

  lemma BrowseUnreadable(sv: Server, id: string, path: string, level: nat)
    requires level <= MAX_CHILDRENS && !Readable(sv, id)
    ensures Browse(sv, id, path, level).Err?
  {
  }

  // Beyond the last level nothing is read.
  lemma {:induction false} EachBeyond(sv: Server, ids: seq<string>, path: string, level: nat)
    requires level > MAX_CHILDRENS
    ensures BrowseEach(sv, ids, path, level) == Ok([])
    decreases |ids|
  {
    if ids != [] {
      EachBeyond(sv, ids[1..], path, level);
      ThenNothing(Ok([]));
    }
  }

  // Browsing that succeeds lists the definitions along the walks.
  lemma {:induction false} BrowseIsWalks(sv: Server, id: string, path: string, level: nat)
    requires level <= MAX_CHILDRENS && Browse(sv, id, path, level).Ok?
    ensures Somes(Browse(sv, id, path, level).value) == Defs(sv, id, path, Walks(sv, id, MAX_CHILDRENS - level))
    decreases MAX_CHILDRENS - level, 0
  {
    hide Browse, BrowseEach, ReadDef, DefAt, WalksFrom, Readable, Entry;
    if !Readable(sv, id) {
      BrowseUnreadable(sv, id, path, level);
    } else {
      DefPath(sv, id, path);
      BrowseReadable(sv, id, path, level);
      var def, es, n := ReadDef(sv, id, path).value, Edges(sv, id), MAX_CHILDRENS - level;
      assert es[0..] == es;
      var rest := BrowseEach(sv, es, def.path, level + 1);
      if n == 0 {
        EachBeyond(sv, es, def.path, level + 1);
        NodeThenRest(sv, id, path, [], []);
      } else {
        EachIsWalks(sv, id, path, 0, level + 1);
        NodeThenRest(sv, id, path, rest.value, WalksFrom(sv, es, 0, n - 1));
      }
    }
  }

  // The node's own entry in front of entries that are already accounted for.
  lemma NodeThenRest(sv: Server, id: string, path: string, rest: seq<NodeDef>, tail: seq<Walk>)
    requires Readable(sv, id) && Somes(rest) == Defs(sv, id, path, tail)
    ensures ReadDef(sv, id, path).Ok?
    ensures var def := ReadDef(sv, id, path).value;
            var own, ws := if def.nodeClass == NODE_CLASS_VARIABLE then [def] else [],
                           if sv[id].nodeClass == NODE_CLASS_VARIABLE then [[]] else [];
            Somes(own + rest) == Defs(sv, id, path, ws + tail)
  {
    DefPath(sv, id, path);
    hide ReadDef, Entry;
    var def := ReadDef(sv, id, path).value;
    if def.nodeClass == NODE_CLASS_VARIABLE {
      SelfIsWalk(sv, id, path);
      DefsConcat(sv, id, path, [[]], tail);
      assert Somes([def] + rest) == Somes([def]) + Somes(rest);
    } else {
      assert [] + rest == rest;
      var none: seq<Walk> := [];
      assert none + tail == tail;
    }
  }

  // Reading the attributes of such a node gives its entry.
  lemma DefPath(sv: Server, id: string, path: string)
    requires Readable(sv, id)
    ensures ReadDef(sv, id, path) == Ok(Entry(sv, id, path))
    ensures Entry(sv, id, path).path == Inner(sv, id, path) && Entry(sv, id, path).nodeClass == sv[id].nodeClass
  {
    WriteBit(sv[id].access);
  }

  lemma WriteBit(access: nat)
    ensures access / 2 % 2 == 1 <==> access % 4 in {2, 3}
  {
  }

  lemma SelfIsWalk(sv: Server, id: string, path: string)
    requires Readable(sv, id)
    ensures Somes([Entry(sv, id, path)]) == Defs(sv, id, path, [[]])
  {
  }

  lemma {:induction false} EachIsWalks(sv: Server, id: string, path: string, k: nat, level: nat)
    requires 0 < level <= MAX_CHILDRENS && Readable(sv, id) && k <= |Edges(sv, id)|
    requires BrowseEach(sv, Edges(sv, id)[k..], Inner(sv, id, path), level).Ok?
    ensures Somes(BrowseEach(sv, Edges(sv, id)[k..], Inner(sv, id, path), level).value)
         == Defs(sv, id, path, WalksFrom(sv, Edges(sv, id), k, MAX_CHILDRENS - level))
    decreases MAX_CHILDRENS - level, 1, |Edges(sv, id)| - k
  {
    hide Browse, ReadDef, Readable, Inner, Edges, DefAt, Walks;
    var es, n, inner := Edges(sv, id), MAX_CHILDRENS - level, Inner(sv, id, path);
    if k < |es| {
      assert es[k..][1..] == es[k + 1..];
      BrowseIsWalks(sv, es[k], inner, level);
      EachIsWalks(sv, id, path, k + 1, level);
      var first, rest := Browse(sv, es[k], inner, level).value, BrowseEach(sv, es[k + 1..], inner, level).value;
      assert Somes(first + rest) == Somes(first) + Somes(rest);
      DefsPrefix(sv, id, path, k, Walks(sv, es[k], n));
      DefsConcat(sv, id, path, Prefix(k, Walks(sv, es[k], n)), WalksFrom(sv, es, k + 1, n));
    }
  }

  // A walk of at most n references ends at a node that cannot be browsed.
  ghost predicate Blocked(sv: Server, id: string, n: nat) {
    exists w :: ReachesUnreadable(sv, id, w, n)
  }

  // Browsing succeeds exactly when no such walk exists.
  lemma {:induction false} BrowseSucceedsIff(sv: Server, id: string, path: string, level: nat)
    requires level <= MAX_CHILDRENS
    ensures Browse(sv, id, path, level).Ok? <==> !Blocked(sv, id, MAX_CHILDRENS - level)
    decreases MAX_CHILDRENS - level, 0
  {
    hide Browse, BrowseEach, ReadDef;
    var n := MAX_CHILDRENS - level;
    if !Readable(sv, id) {
      BrowseUnreadable(sv, id, path, level);
      assert ReachesUnreadable(sv, id, [], n);
    } else {
      DefPath(sv, id, path);
      BrowseReadable(sv, id, path, level);
      var es, inner := Edges(sv, id), ReadDef(sv, id, path).value.path;
      if n == 0 {
        EachBeyond(sv, es, inner, level + 1);
      } else {
        EachSucceedsIff(sv, es, inner, level + 1);
        BlockedThroughEdges(sv, id, n);
      }
    }
  }

  lemma BlockedThroughEdges(sv: Server, id: string, n: nat)
    requires Readable(sv, id) && n > 0
    ensures Blocked(sv, id, n) <==> exists j :: 0 <= j < |Edges(sv, id)| && Blocked(sv, Edges(sv, id)[j], n - 1)
  {
    var es := Edges(sv, id);
    if Blocked(sv, id, n) {
      var w :| ReachesUnreadable(sv, id, w, n);
      assert ReachesUnreadable(sv, es[w[0]], w[1..], n - 1);
      assert Blocked(sv, es[w[0]], n - 1);
    }
    if j :| 0 <= j < |es| && Blocked(sv, es[j], n - 1) {
      var w :| ReachesUnreadable(sv, es[j], w, n - 1);
      assert ([j] + w)[1..] == w;
      assert ReachesUnreadable(sv, id, [j] + w, n);
    }
  }

  lemma {:induction false} EachSucceedsIff(sv: Server, ids: seq<string>, path: string, level: nat)
    requires level <= MAX_CHILDRENS
    ensures BrowseEach(sv, ids, path, level).Ok?
       <==> forall j :: 0 <= j < |ids| ==> !Blocked(sv, ids[j], MAX_CHILDRENS - level)
    decreases MAX_CHILDRENS - level, 1, |ids|
  {
    hide Browse, Blocked;
    if ids != [] {
      BrowseSucceedsIff(sv, ids[0], path, level);
      EachSucceedsIff(sv, ids[1..], path, level);
      assert forall j :: 0 < j < |ids| ==> ids[j] == ids[1..][j - 1];
      assert forall j :: 0 <= j < |ids| - 1 ==> ids[1..][j] == ids[j + 1];
    }
  }

  lemma DefsPrefix(sv: Server, id: string, path: string, k: nat, ws: seq<Walk>)
    requires Readable(sv, id) && k < |Edges(sv, id)|
    ensures Defs(sv, id, path, Prefix(k, ws)) == Defs(sv, Edges(sv, id)[k], Inner(sv, id, path), ws)
  {
    forall i | 0 <= i < |ws|
      ensures DefAt(sv, id, path, Prefix(k, ws)[i]) == DefAt(sv, Edges(sv, id)[k], Inner(sv, id, path), ws[i])
    {
      assert ([k] + ws[i])[1..] == ws[i];
    }
  }

  lemma DefsConcat(sv: Server, id: string, path: string, a: seq<Walk>, b: seq<Walk>)
    ensures Defs(sv, id, path, a + b) == Defs(sv, id, path, a) + Defs(sv, id, path, b)
  {
  }

  // ----- the main results

  // On any finite graph, cyclic or not: browsing from the top succeeds exactly when every walk of at most
  // four references stays among nodes that can be browsed, and then lists one entry for each such walk that
  // ends in a variable, in depth-first order.
  lemma BrowseListsBoundedWalks(sv: Server, id: string)
    ensures Browse(sv, id, "", 0).Ok? <==> !Blocked(sv, id, 4)
    ensures Browse(sv, id, "", 0).Ok? ==>
              exists ws: seq<Walk> ::
                && InOrder(ws) && |ws| == |Browse(sv, id, "", 0).value|
                && (forall w :: w in ws <==> ReachesVariable(sv, id, w, 4))
                && forall i :: 0 <= i < |ws| ==> DefAt(sv, id, "", ws[i]) == Some(Browse(sv, id, "", 0).value[i])
  {
    hide Browse, ReachesVariable, DefAt;
    BrowseSucceedsIff(sv, id, "", 0);
    var r := Browse(sv, id, "", 0);
    if r.Ok? {
      BrowseIsWalks(sv, id, "", 0);
      var ws := Walks(sv, id, MAX_CHILDRENS);
      WalksInOrder(sv, id, MAX_CHILDRENS);
      forall w ensures w in ws <==> ReachesVariable(sv, id, w, MAX_CHILDRENS) {
        if w in ws { WalksSound(sv, id, MAX_CHILDRENS, w); }
        if ReachesVariable(sv, id, w, MAX_CHILDRENS) { WalksComplete(sv, id, MAX_CHILDRENS, w); }
      }
      assert |ws| == |r.value| by { assert |Somes(r.value)| == |Defs(sv, id, "", ws)|; }
      forall i | 0 <= i < |ws| ensures DefAt(sv, id, "", ws[i]) == Some(r.value[i]) {
        assert Somes(r.value)[i] == Defs(sv, id, "", ws)[i];
      }
    }
  }

  // 1 + d + ... + d^n
  function Geometric(d: nat, n: nat): nat {
    if n == 0 then 1 else 1 + d * Geometric(d, n - 1)
  }

  lemma {:induction false} WalksBounded(sv: Server, id: string, n: nat, d: nat)
    requires forall e :: Readable(sv, e) ==> |Edges(sv, e)| <= d
    ensures |Walks(sv, id, n)| <= Geometric(d, n)
    decreases n, 0
  {
    hide Readable, Edges;
    if Readable(sv, id) && n > 0 {
      var es := Edges(sv, id);
      WalksFromBounded(sv, es, 0, n - 1, d);
      MulMonotone(|es|, d, Geometric(d, n - 1));
    }
  }

  lemma {:induction false} WalksFromBounded(sv: Server, es: seq<string>, k: nat, n: nat, d: nat)
    requires k <= |es| && forall e :: Readable(sv, e) ==> |Edges(sv, e)| <= d
    ensures |WalksFrom(sv, es, k, n)| <= (|es| - k) * Geometric(d, n)
    decreases n, |es| - k + 1
  {
    if k < |es| {
      WalksBounded(sv, es[k], n, d);
      WalksFromBounded(sv, es, k + 1, n, d);
      var g := Geometric(d, n);
      assert (|es| - k) * g == g + (|es| - k - 1) * g;
    }
  }

  lemma MulMonotone(a: nat, b: nat, g: nat)
    requires a <= b
    ensures a * g <= b * g
  {
  }

  // With at most d references out of any node, at most 1 + d + d^2 + d^3 + d^4 entries.
  lemma BrowseBounded(sv: Server, id: string, d: nat)
    requires forall e :: Readable(sv, e) ==> |Edges(sv, e)| <= d
    requires Browse(sv, id, "", 0).Ok?
    ensures |Browse(sv, id, "", 0).value| <= 1 + d * (1 + d * (1 + d * (1 + d)))
  {
    hide Browse;
    BrowseIsWalks(sv, id, "", 0);
    var ws := Walks(sv, id, MAX_CHILDRENS);
    WalksBounded(sv, id, MAX_CHILDRENS, d);
    assert |Somes(Browse(sv, id, "", 0).value)| == |Defs(sv, id, "", ws)|;
    assert Geometric(d, 1) == 1 + d * Geometric(d, 0) == 1 + d;
    assert Geometric(d, 2) == 1 + d * Geometric(d, 1);
    assert Geometric(d, 3) == 1 + d * Geometric(d, 2);
    assert Geometric(d, 4) == 1 + d * Geometric(d, 3);
  }
}
