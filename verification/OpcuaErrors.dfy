// The paths of the entries, and the errors of a browse that fails.
module OpcuaErrors {
  import opened Wrappers
  import opened OpcuaBrowse
  import opened OpcuaProofs

  // ----- paths

  // The names of the nodes a walk visits.
  function NamesAlong(sv: Server, id: string, w: Walk): seq<string>
    requires End(sv, id, w).Some? && Readable(sv, End(sv, id, w).value)
    decreases |w|
  {
    [sv[id].name] + if w == [] then [] else NamesAlong(sv, Edges(sv, id)[w[0]], w[1..])
  }

  function Dotted(names: seq<string>): string {
    if names == [] then "" else if |names| == 1 then names[0] else names[0] + "." + Dotted(names[1..])
  }

  function WithoutLeadingBlanks(names: seq<string>): seq<string> {
    if names != [] && names[0] == "" then WithoutLeadingBlanks(names[1..]) else names
  }

  lemma DottedFirst(name: string, rest: seq<string>)
    requires rest != []
    ensures Dotted([name] + rest) == name + "." + Dotted(rest)
  {
    assert ([name] + rest)[1..] == rest;
  }

  lemma DottedOne(name: string)
    ensures Dotted([name]) == name
  {
  }

  lemma DotsAssociate(path: string, name: string, rest: string)
    ensures path + "." + name + "." + rest == path + "." + (name + "." + rest)
  {
  }

  lemma {:induction false} PathBelow(sv: Server, id: string, path: string, w: Walk)
    requires path != "" && End(sv, id, w).Some? && Readable(sv, End(sv, id, w).value)
    ensures DefAt(sv, id, path, w).Some?
    ensures DefAt(sv, id, path, w).value.path == path + "." + Dotted(NamesAlong(sv, id, w))
    decreases |w|
  {
    var name := sv[id].name;
    hide Readable, Edges, Dotted;
    if w == [] {
      DottedOne(name);
    } else {
      var next := Edges(sv, id)[w[0]];
      var below := path + "." + name;
      PathBelow(sv, next, below, w[1..]);
      var rest := NamesAlong(sv, next, w[1..]);
      DottedFirst(name, rest);
      DotsAssociate(path, name, Dotted(rest));
    }
  }

  // The path of an entry is the names of the nodes on the way to it, joined by dots; blank ones in front vanish.
  lemma {:induction false} PathIsNames(sv: Server, id: string, w: Walk)
    requires End(sv, id, w).Some? && Readable(sv, End(sv, id, w).value)
    ensures DefAt(sv, id, "", w).Some?
    ensures DefAt(sv, id, "", w).value.path == Dotted(WithoutLeadingBlanks(NamesAlong(sv, id, w)))
    decreases |w|
  {
    var name := sv[id].name;
    hide Readable, Edges;
    if w == [] {
      assert NamesAlong(sv, id, w) == [name] && WithoutLeadingBlanks([name][1..]) == [];
    } else {
      var next := Edges(sv, id)[w[0]];
      var rest := NamesAlong(sv, next, w[1..]);
      assert NamesAlong(sv, id, w)[1..] == rest;
      if name == "" {
        PathIsNames(sv, next, w[1..]);
      } else {
        PathBelow(sv, next, name, w[1..]);
      }
    }
  }

  // ----- errors

  // The five attributes in the order they are read.
  function Statuses(n: Node): seq<Status> {
    [n.classStatus, n.nameStatus, n.descriptionStatus, n.accessStatus, n.typeStatus]
  }

  // Class and name must be there, the others may be absent.
  predicate Fatal(n: Node, i: nat)
    requires i < 5
  {
    if i < 2 then Statuses(n)[i] != Good else !GoodOrAbsent(Statuses(n)[i])
  }

  predicate FirstFatal(n: Node, i: nat) {
    i < 5 && Fatal(n, i) && forall j :: 0 <= j < i ==> !Fatal(n, j)
  }

  // What is wrong with one node: it is not there, an attribute cannot be read, or references cannot.
  ghost predicate OwnError(sv: Server, id: string, e: Error) {
    match e
    case NoNode(x) => x == id && id !in sv
    case BadRead(x, st) => x == id && id in sv && exists i: nat :: FirstFatal(sv[id], i) && Statuses(sv[id])[i] == st
    case NoReferences(x) =>
      && x == id && id in sv && (forall i :: 0 <= i < 5 ==> !Fatal(sv[id], i))
      && (sv[id].hasComponent == None || sv[id].organizes == None || sv[id].hasProperty == None)
  }

  lemma ReadError(sv: Server, id: string, path: string)
    requires ReadDef(sv, id, path).Err?
    ensures OwnError(sv, id, ReadDef(sv, id, path).error)
  {
    if id in sv {
      var n := sv[id];
      if n.classStatus != Good { assert FirstFatal(n, 0) && Statuses(n)[0] == n.classStatus; }
      else if n.nameStatus != Good { assert FirstFatal(n, 1) && Statuses(n)[1] == n.nameStatus; }
      else if n.descriptionStatus.Bad? { assert FirstFatal(n, 2) && Statuses(n)[2] == n.descriptionStatus; }
      else if n.accessStatus.Bad? { assert FirstFatal(n, 3) && Statuses(n)[3] == n.accessStatus; }
      else { assert FirstFatal(n, 4) && Statuses(n)[4] == n.typeStatus; }
    }
  }

  lemma NoFatalWhenRead(sv: Server, id: string, path: string)
    requires ReadDef(sv, id, path).Ok?
    ensures id in sv && forall i :: 0 <= i < 5 ==> !Fatal(sv[id], i)
  {
  }

  predicate Lists(refs: Option<seq<string>>, to: string) {
    refs.Some? && to in refs.value
  }

  predicate Refers(sv: Server, from: string, to: string) {
    from in sv
    && (Lists(sv[from].hasComponent, to) || Lists(sv[from].organizes, to) || Lists(sv[from].hasProperty, to))
  }

  // A chain of references of at most n steps from id.
  predicate IsChain(sv: Server, id: string, p: seq<string>, n: nat) {
    0 < |p| <= n + 1 && p[0] == id && forall i :: 0 <= i < |p| - 1 ==> Refers(sv, p[i], p[i + 1])
  }

  ghost predicate Explains(sv: Server, id: string, n: nat, e: Error) {
    exists p :: IsChain(sv, id, p, n) && OwnError(sv, p[|p| - 1], e)
  }

  lemma ExplainsOwn(sv: Server, id: string, n: nat, e: Error)
    requires OwnError(sv, id, e)
    ensures Explains(sv, id, n, e)
  {
    assert IsChain(sv, id, [id], n);
  }

  lemma ExplainsThrough(sv: Server, from: string, to: string, n: nat, e: Error)
    requires Refers(sv, from, to) && Explains(sv, to, n, e)
    ensures Explains(sv, from, n + 1, e)
  {
    var p :| IsChain(sv, to, p, n) && OwnError(sv, p[|p| - 1], e);
    assert IsChain(sv, from, [from] + p, n + 1);
  }

  // A browse that fails reports what is wrong with a node within four references of where it started.
  lemma {:induction false} ErrorIsOwn(sv: Server, id: string, path: string, level: nat)
    requires level <= MAX_CHILDRENS && Browse(sv, id, path, level).Err?
    ensures Explains(sv, id, MAX_CHILDRENS - level, Browse(sv, id, path, level).error)
    decreases MAX_CHILDRENS - level, 2
  {
    hide ReadDef, OwnError, Explains, BrowseChildren;
    if ReadDef(sv, id, path).Err? {
      ReadError(sv, id, path);
      ExplainsOwn(sv, id, MAX_CHILDRENS - level, ReadDef(sv, id, path).error);
    } else {
      NoFatalWhenRead(sv, id, path);
      var n, below := sv[id], ReadDef(sv, id, path).value.path;
      if BrowseChildren(sv, id, n.hasComponent, below, level).Err? {
        ChildrenError(sv, id, n.hasComponent, below, level);
      } else if BrowseChildren(sv, id, n.organizes, below, level).Err? {
        ChildrenError(sv, id, n.organizes, below, level);
      } else {
        ChildrenError(sv, id, n.hasProperty, below, level);
      }
    }
  }

  lemma {:induction false} ChildrenError(sv: Server, id: string, refs: Option<seq<string>>, path: string, level: nat)
    requires level <= MAX_CHILDRENS && id in sv && (forall i :: 0 <= i < 5 ==> !Fatal(sv[id], i))
    requires refs in [sv[id].hasComponent, sv[id].organizes, sv[id].hasProperty]
    requires BrowseChildren(sv, id, refs, path, level).Err?
    ensures Explains(sv, id, MAX_CHILDRENS - level, BrowseChildren(sv, id, refs, path, level).error)
    decreases MAX_CHILDRENS - level, 1, 0
  {
    hide Explains, Browse, Fatal;
    if refs.None? {
      ExplainsOwn(sv, id, MAX_CHILDRENS - level, NoReferences(id));
    } else if level == MAX_CHILDRENS {
      EachBeyond(sv, refs.value, path, level + 1);
    } else {
      var to := EachError(sv, refs.value, path, level + 1);
      assert Refers(sv, id, to);
      ExplainsThrough(sv, id, to, MAX_CHILDRENS - level - 1, BrowseEach(sv, refs.value, path, level + 1).error);
    }
  }

  lemma {:induction false} EachError(sv: Server, ids: seq<string>, path: string, level: nat) returns (to: string)
    requires level <= MAX_CHILDRENS && BrowseEach(sv, ids, path, level).Err?
    ensures to in ids && Explains(sv, to, MAX_CHILDRENS - level, BrowseEach(sv, ids, path, level).error)
    decreases MAX_CHILDRENS - level, 3, |ids|
  {
    hide Explains, Browse;
    if Browse(sv, ids[0], path, level).Err? {
      to := ids[0];
      ErrorIsOwn(sv, to, path, level);
    } else {
      to := EachError(sv, ids[1..], path, level);
    }
  }

  // Of several failures the first is reported: among the children of a node the first in their order ...
  lemma {:induction false} FirstChildError(sv: Server, ids: seq<string>, path: string, level: nat) returns (k: nat)
    requires BrowseEach(sv, ids, path, level).Err?
    ensures k < |ids| && BrowseEach(sv, ids, path, level) == Browse(sv, ids[k], path, level)
    ensures forall j :: 0 <= j < k ==> Browse(sv, ids[j], path, level).Ok?
    decreases |ids|
  {
    hide Browse;
    k := 0;
    if Browse(sv, ids[0], path, level).Ok? {
      var k' := FirstChildError(sv, ids[1..], path, level);
      k := k' + 1;
      forall j | 0 <= j < k ensures Browse(sv, ids[j], path, level).Ok? {
        if j > 0 { assert ids[j] == ids[1..][j - 1]; }
      }
    }
  }

  // ... and of a node its attributes, then its components, its members and its properties.
  lemma FirstNodeError(sv: Server, id: string, path: string, level: nat)
    requires level <= MAX_CHILDRENS && Browse(sv, id, path, level).Err?
    ensures var e := Browse(sv, id, path, level).error;
            if ReadDef(sv, id, path).Err? then ReadDef(sv, id, path) == Err(e)
            else
              var n, below := sv[id], ReadDef(sv, id, path).value.path;
              var a, b, c := BrowseChildren(sv, id, n.hasComponent, below, level),
                             BrowseChildren(sv, id, n.organizes, below, level),
                             BrowseChildren(sv, id, n.hasProperty, below, level);
              a == Err(e) || (a.Ok? && (b == Err(e) || (b.Ok? && c == Err(e))))
  {
    hide BrowseChildren;
  }
}
