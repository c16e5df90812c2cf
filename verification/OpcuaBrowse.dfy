// Depth-bounded browsing of an OPC-UA address space, which may be cyclic.
module OpcuaBrowse {
  import opened Wrappers

  const MAX_CHILDRENS := 4
  const NODE_CLASS_VARIABLE := 2
  const CURRENT_WRITE := 2

  // ----- what the server answers

  datatype Status = Good | BadAttributeIDInvalid | Bad(code: nat)

  datatype DataTypeID = DataTypeID(intID: nat, text: string)

  // The five attributes read of a node and its forward references, None where the read itself fails.
  datatype Node = Node(
    classStatus: Status, nodeClass: int,
    nameStatus: Status, name: string,
    descriptionStatus: Status, description: string,
    accessStatus: Status, access: nat,
    typeStatus: Status, dataType: DataTypeID,
    hasComponent: Option<seq<string>>,
    organizes: Option<seq<string>>,
    hasProperty: Option<seq<string>>)

  // Nodes by identifier; one that is not there cannot be parsed or read.
  type Server = map<string, Node>

  datatype Error = NoNode(id: string) | BadRead(id: string, status: Status) | NoReferences(id: string)

  datatype NodeDef = NodeDef(
    nodeID: string,
    nodeClass: int,
    name: string,
    description: string,
    access: nat,
    writable: bool,
    dataType: string,
    path: string)

  datatype Result<+T> = Ok(value: T) | Err(error: Error)

  function JoinPath(a: string, b: string): string {
    if a == "" then b else a + "." + b
  }

  function TypeName(id: DataTypeID): string {
    match id.intID
    case 13 => "time.Time"
    case 1 => "bool"
    case 2 => "int8"
    case 4 => "int16"
    case 6 => "int32"
    case 3 => "byte"
    case 5 => "uint16"
    case 7 => "uint32"
    case 294 => "time.Time"
    case 12 => "string"
    case 10 => "float32"
    case 11 => "float64"
    case _ => id.text
  }

  // Class and name must be readable; the others may be absent but not unreadable.
  function ReadDef(sv: Server, id: string, path: string): Result<NodeDef> {
    if id !in sv then Err(NoNode(id))
    else
      var n := sv[id];
      if !n.classStatus.Good? then Err(BadRead(id, n.classStatus))
      else if !n.nameStatus.Good? then Err(BadRead(id, n.nameStatus))
      else if n.descriptionStatus.Bad? then Err(BadRead(id, n.descriptionStatus))
      else if n.accessStatus.Bad? then Err(BadRead(id, n.accessStatus))
      else if n.typeStatus.Bad? then Err(BadRead(id, n.typeStatus))
      else
        Ok(NodeDef(
          id, n.nodeClass, n.name,
          if n.descriptionStatus.Good? then n.description else "",
          if n.accessStatus.Good? then n.access else 0,
          n.accessStatus.Good? && n.access / CURRENT_WRITE % 2 == 1,
          if n.typeStatus.Good? then TypeName(n.dataType) else "",
          JoinPath(path, n.name)))
  }

  // ----- browsing as a function

  function Then(a: Result<seq<NodeDef>>, b: Result<seq<NodeDef>>): Result<seq<NodeDef>> {
    if a.Err? then a else if b.Err? then b else Ok(a.value + b.value)
  }

  lemma ThenNothing(r: Result<seq<NodeDef>>)
    ensures Then(Ok([]), r) == r
  {
    if r.Ok? { assert [] + r.value == r.value; }
  }

  function Browse(sv: Server, id: string, path: string, level: nat): Result<seq<NodeDef>>
    decreases MAX_CHILDRENS + 1 - level, 0
  {
    if level > MAX_CHILDRENS then Ok([])
    else
      match ReadDef(sv, id, path)
      case Err(e) => Err(e)
      case Ok(def) =>
        Then(Ok(if def.nodeClass == NODE_CLASS_VARIABLE then [def] else []),
          Then(BrowseChildren(sv, id, sv[id].hasComponent, def.path, level),
            Then(BrowseChildren(sv, id, sv[id].organizes, def.path, level),
              BrowseChildren(sv, id, sv[id].hasProperty, def.path, level))))
  }

  function BrowseChildren(sv: Server, id: string, refs: Option<seq<string>>, path: string, level: nat)
    : Result<seq<NodeDef>>
    requires level <= MAX_CHILDRENS
    decreases MAX_CHILDRENS - level, if refs.Some? then |refs.value| + 1 else 0
  {
    if refs.None? then Err(NoReferences(id)) else BrowseEach(sv, refs.value, path, level + 1)
  }

  function BrowseEach(sv: Server, ids: seq<string>, path: string, level: nat): Result<seq<NodeDef>>
    decreases MAX_CHILDRENS + 1 - level, |ids|
  {
    if ids == [] then Ok([])
    else Then(Browse(sv, ids[0], path, level), BrowseEach(sv, ids[1..], path, level))
  }

  // ----- the two methods

  method BrowseNode(sv: Server, id: string, path: string, level: nat) returns (r: Result<seq<NodeDef>>)
    ensures r == Browse(sv, id, path, level)
    decreases MAX_CHILDRENS + 1 - level, 2
  {
    if level > MAX_CHILDRENS {
      return Ok([]);
    }
    if id !in sv {
      return Err(NoNode(id));
    }
    var attrs := sv[id];
    var def := NodeDef(id, 0, "", "", 0, false, "", "");
    match attrs.classStatus {
      case Good => def := def.(nodeClass := attrs.nodeClass);
      case _ => return Err(BadRead(id, attrs.classStatus));
    }
    match attrs.nameStatus {
      case Good => def := def.(name := attrs.name);
      case _ => return Err(BadRead(id, attrs.nameStatus));
    }
    match attrs.descriptionStatus {
      case Good => def := def.(description := attrs.description);
      case BadAttributeIDInvalid =>
      case _ => return Err(BadRead(id, attrs.descriptionStatus));
    }
    match attrs.accessStatus {
      case Good =>
        def := def.(access := attrs.access);
        def := def.(writable := def.access / CURRENT_WRITE % 2 == 1);
      case BadAttributeIDInvalid =>
      case _ => return Err(BadRead(id, attrs.accessStatus));
    }
    match attrs.typeStatus {
      case Good => def := def.(dataType := TypeName(attrs.dataType));
      case BadAttributeIDInvalid =>
      case _ => return Err(BadRead(id, attrs.typeStatus));
    }
    def := def.(path := JoinPath(path, def.name));
    assert ReadDef(sv, id, path) == Ok(def);
    r := BrowseReferences(sv, id, def, level);
  }

  // The node itself if it is a variable, then its components, its members and its properties.
  method BrowseReferences(sv: Server, id: string, def: NodeDef, level: nat) returns (r: Result<seq<NodeDef>>)
    requires level <= MAX_CHILDRENS && id in sv
    ensures r == Then(Ok(if def.nodeClass == NODE_CLASS_VARIABLE then [def] else []),
                   Then(BrowseChildren(sv, id, sv[id].hasComponent, def.path, level),
                     Then(BrowseChildren(sv, id, sv[id].organizes, def.path, level),
                       BrowseChildren(sv, id, sv[id].hasProperty, def.path, level))))
    decreases MAX_CHILDRENS + 1 - level, 1
  {
    hide BrowseChildren;
    var nodes: seq<NodeDef> := [];
    if def.nodeClass == NODE_CLASS_VARIABLE {
      nodes := nodes + [def];
    }
    ghost var self := nodes;
    assert self == if def.nodeClass == NODE_CLASS_VARIABLE then [def] else [];
    var bc := BrowseTyped(sv, id, sv[id].hasComponent, def.path, level);
    if bc.Err? {
      return bc;
    }
    ghost var first := bc.value;
    nodes := nodes + bc.value;
    bc := BrowseTyped(sv, id, sv[id].organizes, def.path, level);
    if bc.Err? {
      return bc;
    }
    ghost var second := bc.value;
    nodes := nodes + bc.value;
    bc := BrowseTyped(sv, id, sv[id].hasProperty, def.path, level);
    if bc.Err? {
      return bc;
    }
    nodes := nodes + bc.value;
    assert self + first + second + bc.value == self + (first + (second + bc.value));
    return Ok(nodes);
  }

  // `browseChildren`: the loop over the references of one type.
  method BrowseTyped(sv: Server, id: string, refs: Option<seq<string>>, path: string, level: nat)
    returns (r: Result<seq<NodeDef>>)
    requires level <= MAX_CHILDRENS
    ensures r == BrowseChildren(sv, id, refs, path, level)
    decreases MAX_CHILDRENS + 1 - level, 0
  {
    if refs.None? {
      return Err(NoReferences(id));
    }
    var nodes: seq<NodeDef> := [];
    assert refs.value[0..] == refs.value;
    ThenNothing(BrowseEach(sv, refs.value, path, level + 1));
    for k := 0 to |refs.value|
      invariant BrowseEach(sv, refs.value, path, level + 1)
             == Then(Ok(nodes), BrowseEach(sv, refs.value[k..], path, level + 1))
    {
      hide Browse;
      assert refs.value[k..][1..] == refs.value[k + 1..];
      var children := BrowseNode(sv, refs.value[k], path, level + 1);
      if children.Err? {
        return children;
      }
      ghost var before := nodes;
      nodes := nodes + children.value;
      ghost var rest := BrowseEach(sv, refs.value[k + 1..], path, level + 1);
      if rest.Ok? {
        assert before + (children.value + rest.value) == nodes + rest.value;
      }
    }
    assert nodes + [] == nodes;
    return Ok(nodes);
  }
}
