/** Loading a graph file: arguments and nodes are parsed against the names seen so
    far, numbered in order and added to the graph. */
module GraphLoader {
  import opened Common
  import opened IndexText

  datatype Predecessor = Predecessor(id: nat, indexes: seq<int>, groupBy: Option<nat>)

  datatype ArgType = Ref(id: nat) | Res(id: nat) | Dep(id: nat) | Barrier(text: string) | OtherValue | NoValue

  datatype Arg = Arg(type_: ArgType, conditional: bool, predecessor: Option<Predecessor>)

  datatype Node = Node(
    id: nat,
    name: string,
    args: seq<Arg>,
    loopArgs: seq<Arg>,
    conditionArgs: seq<Arg>,
    hasCondition: bool,
    factor: nat)

  // --------------------------------------------------------------- JSON input

  datatype PredJson = PredJson(name: string, indexes: string, groupBy: Option<nat>)

  /** `condition` says whether the argument's init condition, if any, parses, and
      `otherParses` whether a value of an ordinary type does. */
  datatype ArgJson = ArgJson(
    typeName: string,
    value: Option<string>,
    condition: Option<bool>,
    predecessor: Option<PredJson>,
    otherParses: bool)

  datatype NodeJson = NodeJson(
    name: string,
    args: seq<ArgJson>,
    loopArgs: Option<seq<ArgJson>>,
    condition: Option<seq<ArgJson>>,
    conditionParses: bool,
    workersParse: bool,
    factor: nat)

  datatype NetworkJson = NetworkJson(indexArgs: seq<ArgJson>, framePackets: nat)

  /** Objects by name: their id and their first value as a number. */
  datatype ObjectInfo = ObjectInfo(id: nat, number: Option<nat>)
  type ObjectMap = map<string, ObjectInfo>

  datatype LoadError =
    | UnknownPredecessor(name: string)
    | BadIndexes(error: ParseError)
    | BadCondition
    | BadValue(typeName: string)
    | BadLayout(position: nat)
    | BadWorkers

  datatype Loaded<+T> = Good(value: T) | Bad(error: LoadError) {
    predicate IsFailure() { Bad? }
    function PropagateFailure<U>(): Loaded<U>
      requires Bad?
    {
      Bad(error)
    }
    function Extract(): T
      requires Good?
    {
      value
    }
  }

  type Names = map<string, nat>

  function Numbers(objs: ObjectMap): Objects {
    map name | name in objs :: objs[name].number
  }

  function ParseUsize(s: string): Option<nat> {
    var digits := ParseDigits(if s != [] && s[0] == '+' then s[1..] else s);
    if digits.Some? && digits.value <= USIZE_MAX then digits else None
  }

  function StringToType(typeName: string, text: string, otherParses: bool): Option<ArgType> {
    if typeName == "$ref" then (match ParseUsize(text) case Some(n) => Some(Ref(n)) case None => None)
    else if typeName == "$res" then (match ParseUsize(text) case Some(n) => Some(Res(n)) case None => None)
    else if typeName == "$dep" then (match ParseUsize(text) case Some(n) => Some(Dep(n)) case None => None)
    else if typeName == "$barrier" then Some(Barrier(text))
    else if otherParses then Some(OtherValue)
    else None
  }

  function ParsePredecessor(p: PredJson, objs: ObjectMap, names: Names): Loaded<Predecessor> {
    if p.name !in names then Bad(UnknownPredecessor(p.name))
    else
      match Parsed(p.indexes, Numbers(objs))
      case Err(e) => Bad(BadIndexes(e))
      case Ok(indexes) => Good(Predecessor(names[p.name], indexes, p.groupBy))
  }

  function ParseArg(a: ArgJson, objs: ObjectMap, names: Names): Loaded<Arg> {
    if a.condition == Some(false) then Bad(BadCondition)
    else
      match a.predecessor
      case Some(p) =>
        var pred :- ParsePredecessor(p, objs, names);
        (match StringToType(a.typeName, Show(pred.id), a.otherParses)
         case None => Bad(BadValue(a.typeName))
         case Some(t) => Good(Arg(t, a.condition.Some?, Some(pred))))
      case None =>
        if a.value.None? then Good(Arg(NoValue, a.condition.Some?, None))
        else
          var text := if a.value.value in objs then Show(objs[a.value.value].id) else a.value.value;
          match StringToType(a.typeName, text, a.otherParses)
          case None => Bad(BadValue(a.typeName))
          case Some(t) => Good(Arg(t, a.condition.Some?, None))
  }

  /** `collect::<Result<_, _>>`: all of them, or the first error. */
  function ParseArgs(args: seq<ArgJson>, objs: ObjectMap, names: Names): Loaded<seq<Arg>> {
    if args == [] then Good([])
    else
      var first :- ParseArg(args[0], objs, names);
      var rest :- ParseArgs(args[1..], objs, names);
      Good([first] + rest)
  }

  // ------------------------------------------------------------ layout check

  function Occupying(args: seq<Arg>): seq<Arg> {
    if args == [] then []
    else (if args[0].conditional then [] else [args[0]]) + Occupying(args[1..])
  }

  /** A `$res` argument that resolves to several values. */
  predicate MultiValue(a: Arg, factor: nat) {
    && a.type_.Res? && a.predecessor.Some? && a.predecessor.value.groupBy.None?
    && |a.predecessor.value.indexes| > 1 && |a.predecessor.value.indexes| != factor
  }

  method ValidateResArgLayout(args: seq<Arg>, factor: nat) returns (r: Loaded<()>)
    ensures r == LayoutCheck(args, factor)
  {
    var layout := Occupying(args);
    for pos := 0 to |layout|
      invariant forall k | 0 <= k < pos && k + 1 < |layout| :: !MultiValue(layout[k], factor)
    {
      var isLast := pos + 1 == |layout|;
      if MultiValue(layout[pos], factor) && !isLast {
        FirstMultiIs(layout, factor, pos);
        return Bad(BadLayout(pos));
      }
    }
    r := Good(());
  }

  /** Position of the first multi-value argument that is not the last. */
  function FirstMulti(layout: seq<Arg>, factor: nat): Option<nat> {
    if |layout| <= 1 then None
    else if MultiValue(layout[0], factor) then Some(0)
    else
      match FirstMulti(layout[1..], factor)
      case None => None
      case Some(k) => Some(k + 1)
  }

  lemma {:induction false} FirstMultiIs(layout: seq<Arg>, factor: nat, pos: nat)
    requires pos + 1 < |layout| && MultiValue(layout[pos], factor)
    requires forall k | 0 <= k < pos :: !MultiValue(layout[k], factor)
    ensures FirstMulti(layout, factor) == Some(pos)
  {
    if pos > 0 {
      FirstMultiIs(layout[1..], factor, pos - 1);
    }
  }

  predicate OnlyLastMulti(layout: seq<Arg>, factor: nat) {
    forall k | 0 <= k < |layout| - 1 :: !MultiValue(layout[k], factor)
  }

  function LayoutCheck(args: seq<Arg>, factor: nat): (r: Loaded<()>)
    ensures r.Good? <==> OnlyLastMulti(Occupying(args), factor)
  {
    NoMultiMeansNone(Occupying(args), factor);
    match FirstMulti(Occupying(args), factor)
    case None => Good(())
    case Some(k) => Bad(BadLayout(k))
  }

  lemma {:induction false} NoMultiMeansNone(layout: seq<Arg>, factor: nat)
    ensures FirstMulti(layout, factor).None? <==> OnlyLastMulti(layout, factor)
  {
    if |layout| > 1 {
      NoMultiMeansNone(layout[1..], factor);
      assert forall k | 0 < k < |layout| - 1 :: layout[k] == layout[1..][k - 1];
      assert forall k | 0 <= k < |layout| - 2 :: layout[1..][k] == layout[k + 1];
    }
  }

  // -------------------------------------------------------------------- nodes

  /** A node with id 0; the caller assigns the real one. */
  function ParseNode(n: NodeJson, objs: ObjectMap, names: Names): Loaded<Node> {
    var args :- ParseArgs(n.args, objs, names);
    var loopArgs :- ParseArgs(if n.loopArgs.Some? then n.loopArgs.value else [], objs, names);
    var _ :- LayoutCheck(args, n.factor);
    if n.condition.Some? && !n.conditionParses then Bad(BadCondition)
    else
      var conditionArgs :- ParseArgs(if n.condition.Some? then n.condition.value else [], objs, names);
      if !n.workersParse then Bad(BadWorkers)
      else Good(Node(0, n.name, args, loopArgs, conditionArgs, n.condition.Some?, n.factor))
  }

  /** The latest node of each name. */
  function NamesOf(nodes: seq<Node>): Names {
    if nodes == [] then map[]
    else NamesOf(nodes[..|nodes| - 1])[nodes[|nodes| - 1].name := |nodes| - 1]
  }

  /** The node list after the first n node objects, or the first error among them. */
  function LoadNodes(jsons: seq<NodeJson>, n: nat, objs: ObjectMap, base: seq<Node>): Loaded<seq<Node>>
    requires n <= |jsons|
  {
    if n == 0 then Good(base)
    else
      var before :- LoadNodes(jsons, n - 1, objs, base);
      var node :- ParseNode(jsons[n - 1], objs, NamesOf(before));
      Good(before + [node.(id := |before|)])
  }

  /** The virtual node every network graph starts with. */
  function NetworkNode(framePackets: nat): Node {
    Node(0, "$network", [], [], [], false, framePackets)
  }

  // -------------------------------------------------------------------- graph

  predicate RefersBelow(args: seq<Arg>, limit: nat) {
    forall a <- args :: a.predecessor.Some? ==> a.predecessor.value.id < limit
  }

  predicate NodeRefersBelow(n: Node, limit: nat) {
    RefersBelow(n.args, limit) && RefersBelow(n.loopArgs, limit) && RefersBelow(n.conditionArgs, limit)
  }

  function ArgPreds(n: Node): set<nat> {
    set a <- n.args | a.predecessor.Some? :: a.predecessor.value.id
  }

  /** Ids are insertion order and every dependency points backwards. */
  predicate Ordered(nodes: seq<Node>) {
    forall k | 0 <= k < |nodes| :: nodes[k].id == k && NodeRefersBelow(nodes[k], k)
  }

  function SuccessorsOf(nodes: seq<Node>, id: nat): seq<nat> {
    if nodes == [] then []
    else
      var before := SuccessorsOf(nodes[..|nodes| - 1], id);
      if id in ArgPreds(nodes[|nodes| - 1]) then before + [nodes[|nodes| - 1].id] else before
  }

  predicate IsInitial(n: Node) {
    ArgPreds(n) == {} && n.name != "$network"
  }

  function InitialsOf(nodes: seq<Node>): seq<nat> {
    if nodes == [] then []
    else
      var before := InitialsOf(nodes[..|nodes| - 1]);
      var n := nodes[|nodes| - 1];
      if IsInitial(n) then before + [n.id] else before
  }

  predicate IsConditional(n: Node) {
    n.hasCondition || exists a <- n.args :: a.conditional
  }

  function ListAt(table: seq<seq<nat>>, i: nat): seq<nat> {
    if i < |table| then table[i] else []
  }

  function ConditionalsOf(nodes: seq<Node>): set<nat> {
    set n <- nodes | IsConditional(n) :: n.id
  }

  /** A successor table may stop early, but only where nothing is missing. */
  ghost predicate LinksMatch(nodes: seq<Node>, successors: seq<seq<nat>>) {
    forall i: nat :: ListAt(successors, i) == SuccessorsOf(nodes, i)
  }

  /** `after` is `before`, grown, with `id` appended to the list of each of `preds`. */
  ghost predicate Linked(before: seq<seq<nat>>, after: seq<seq<nat>>, preds: set<nat>, id: nat) {
    && |after| >= |before| && (forall p <- preds :: p < |after|)
    && forall i | 0 <= i < |after| :: after[i] == ListAt(before, i) + if i in preds then [id] else []
  }

  lemma {:induction false} GrowStep(before: seq<seq<nat>>, after: seq<seq<nat>>, preds: set<nat>, id: nat)
    requires Linked(before, after, preds, id)
    ensures Linked(before, after + [[]], preds, id)
  {
  }

  lemma {:induction false} LinkStep(before: seq<seq<nat>>, after: seq<seq<nat>>, preds: set<nat>, p: nat, id: nat)
    requires Linked(before, after, preds, id) && p < |after| && p !in preds
    ensures Linked(before, after[p := after[p] + [id]], preds + {p}, id)
  {
    assert after[p] == ListAt(before, p);
  }

  lemma {:induction false} LinksStep(nodes: seq<Node>, node: Node, before: seq<seq<nat>>, after: seq<seq<nat>>)
    requires LinksMatch(nodes, before) && Linked(before, after, ArgPreds(node), node.id)
    ensures LinksMatch(nodes + [node], after)
  {
    var all := nodes + [node];
    assert all[..|all| - 1] == nodes;
    forall i: nat ensures ListAt(after, i) == SuccessorsOf(all, i) {
      assert ListAt(before, i) == SuccessorsOf(nodes, i);
    }
  }

  lemma {:induction false} OrderedStep(nodes: seq<Node>, node: Node)
    requires Ordered(nodes) && node.id == |nodes| && NodeRefersBelow(node, node.id)
    ensures Ordered(nodes + [node])
  {
  }

  lemma {:induction false} TablesStep(nodes: seq<Node>, node: Node)
    ensures InitialsOf(nodes + [node]) == InitialsOf(nodes) + if IsInitial(node) then [node.id] else []
    ensures ConditionalsOf(nodes + [node]) == ConditionalsOf(nodes) + if IsConditional(node) then {node.id} else {}
  {
    var all := nodes + [node];
    assert all[..|all| - 1] == nodes && all[|all| - 1] == node;
    assert forall n <- all :: n in nodes || n == node;
    assert node in all && forall n <- nodes :: n in all;
  }

  lemma {:induction false} NamesStep(nodes: seq<Node>, node: Node)
    ensures NamesOf(nodes + [node]) == NamesOf(nodes)[node.name := |nodes|]
  {
    var all := nodes + [node];
    assert all[..|all| - 1] == nodes && all[|all| - 1] == node;
  }

  /** The derived tables say exactly what the node list says. */
  ghost predicate TablesMatch(nodes: seq<Node>, starts: seq<nat>, conditionals: set<nat>, links: seq<seq<nat>>) {
    && Ordered(nodes)
    && starts == InitialsOf(nodes)
    && conditionals == ConditionalsOf(nodes)
    && LinksMatch(nodes, links)
  }

  lemma {:induction false} TablesGrow(nodes: seq<Node>, node: Node, starts: seq<nat>, conditionals: set<nat>,
                                      links: seq<seq<nat>>, after: seq<seq<nat>>)
    requires TablesMatch(nodes, starts, conditionals, links)
    requires node.id == |nodes| && NodeRefersBelow(node, node.id)
    requires Linked(links, after, ArgPreds(node), node.id)
    ensures TablesMatch(nodes + [node],
                        if IsInitial(node) then starts + [node.id] else starts,
                        if IsConditional(node) then conditionals + {node.id} else conditionals,
                        after)
  {
    hide Ordered, InitialsOf, ConditionalsOf, LinksMatch, Linked, IsInitial, IsConditional, NodeRefersBelow;
    LinksStep(nodes, node, links, after);
    TablesStep(nodes, node);
    OrderedStep(nodes, node);
  }

  class Graph {
    var nodes: seq<Node>
    var initialNodes: seq<nat>
    var successors: seq<seq<nat>>
    var conditionNodes: set<nat>
    var postNodes: seq<Node>

    ghost predicate Valid()
      reads this
    {
      TablesMatch(nodes, initialNodes, conditionNodes, successors)
    }

    constructor ()
      ensures Valid() && nodes == [] && postNodes == []
    {
      nodes, initialNodes, successors, conditionNodes, postNodes := [], [], [], {}, [];
    }

    /** Appends `id` to the list of each of `preds`, growing the table as needed. */
    method LinkSuccessors(preds: set<nat>, id: nat)
      modifies this`successors
      ensures Linked(old(successors), successors, preds, id)
    {
      ghost var before := successors;
      var rest := preds;
      while rest != {}
        invariant rest <= preds && Linked(before, successors, preds - rest, id)
        decreases rest
      {
        var predId :| predId in rest;
        while |successors| <= predId
          invariant Linked(before, successors, preds - rest, id)
        {
          GrowStep(before, successors, preds - rest, id);
          successors := successors + [[]];
        }
        LinkStep(before, successors, preds - rest, predId, id);
        assert (preds - rest) + {predId} == preds - (rest - {predId});
        successors := successors[predId := successors[predId] + [id]];
        rest := rest - {predId};
      }
      assert preds - rest == preds;
    }

    method AddNode(node: Node)
      requires Valid()
      requires node.id == |nodes| && NodeRefersBelow(node, node.id)
      modifies this
      ensures Valid()
      ensures nodes == old(nodes) + [node] && postNodes == old(postNodes)
    {
      hide TablesMatch;
      ghost var before, starts, conditionals, links := nodes, initialNodes, conditionNodes, successors;
      var uniquePreds := ArgPreds(node);
      LinkSuccessors(uniquePreds, node.id);
      if uniquePreds == {} && node.name != "$network" {
        initialNodes := initialNodes + [node.id];
      }
      if IsConditional(node) {
        conditionNodes := conditionNodes + {node.id};
      }
      nodes := nodes + [node];
      TablesGrow(before, node, starts, conditionals, links, successors);
    }

    method AddPostNode(node: Node)
      requires node.id == |postNodes|
      modifies this`postNodes
      ensures postNodes == old(postNodes) + [node]
    {
      postNodes := postNodes + [node];
    }
  }

  // ----------------------------------------------------------- every reference

  lemma {:induction false} ParsedArgsReferBelow(args: seq<ArgJson>, objs: ObjectMap, names: Names, limit: nat)
    requires forall s <- names :: names[s] < limit
    requires ParseArgs(args, objs, names).Good?
    ensures RefersBelow(ParseArgs(args, objs, names).value, limit)
  {
    if args != [] {
      ParsedArgsReferBelow(args[1..], objs, names, limit);
    }
  }

  lemma {:induction false} NamesAreBelow(nodes: seq<Node>)
    ensures forall s <- NamesOf(nodes) :: NamesOf(nodes)[s] < |nodes| && nodes[NamesOf(nodes)[s]].name == s
  {
    if nodes != [] {
      NamesAreBelow(nodes[..|nodes| - 1]);
    }
  }

  lemma {:induction false} ParsedNodeRefersBelow(n: NodeJson, objs: ObjectMap, nodes: seq<Node>)
    requires ParseNode(n, objs, NamesOf(nodes)).Good?
    ensures NodeRefersBelow(ParseNode(n, objs, NamesOf(nodes)).value, |nodes|)
  {
    NamesAreBelow(nodes);
    var names := NamesOf(nodes);
    ParsedArgsReferBelow(n.args, objs, names, |nodes|);
    ParsedArgsReferBelow(if n.loopArgs.Some? then n.loopArgs.value else [], objs, names, |nodes|);
    ParsedArgsReferBelow(if n.condition.Some? then n.condition.value else [], objs, names, |nodes|);
  }

  lemma {:induction false} FirstErrorStays(jsons: seq<NodeJson>, i: nat, objs: ObjectMap, base: seq<Node>)
    requires i <= |jsons| && LoadNodes(jsons, i, objs, base).Bad?
    ensures LoadNodes(jsons, |jsons|, objs, base) == LoadNodes(jsons, i, objs, base)
    decreases |jsons| - i
  {
    if i < |jsons| {
      FirstErrorStays(jsons, i + 1, objs, base);
    }
  }

  /** Post-nodes see every main node but not each other. */
  function LoadPosts(posts: seq<NodeJson>, n: nat, objs: ObjectMap, names: Names): Loaded<seq<Node>>
    requires n <= |posts|
  {
    if n == 0 then Good([])
    else
      var before :- LoadPosts(posts, n - 1, objs, names);
      var node :- ParseNode(posts[n - 1], objs, names);
      Good(before + [node.(id := |before|)])
  }

  lemma {:induction false} FirstPostErrorStays(posts: seq<NodeJson>, i: nat, objs: ObjectMap, names: Names)
    requires i <= |posts| && LoadPosts(posts, i, objs, names).Bad?
    ensures LoadPosts(posts, |posts|, objs, names) == LoadPosts(posts, i, objs, names)
    decreases |posts| - i
  {
    if i < |posts| {
      FirstPostErrorStays(posts, i + 1, objs, names);
    }
  }

  function BaseNodes(network: Option<NetworkJson>): seq<Node> {
    if network.Some? then [NetworkNode(network.value.framePackets)] else []
  }

  /** Nodes and post-nodes of a graph file; the network block's own arguments may
      name no node. */
  function LoadGraph(network: Option<NetworkJson>, jsons: seq<NodeJson>, posts: seq<NodeJson>, objs: ObjectMap)
    : Loaded<(seq<Node>, seq<Node>)>
  {
    var _ :- ParseArgs(if network.Some? then network.value.indexArgs else [], objs, map[]);
    var nodes :- LoadNodes(jsons, |jsons|, objs, BaseNodes(network));
    var postNodes :- LoadPosts(posts, |posts|, objs, NamesOf(nodes));
    Good((nodes, postNodes))
  }

  lemma {:induction false} ParsedNameIs(n: NodeJson, objs: ObjectMap, names: Names)
    requires ParseNode(n, objs, names).Good?
    ensures ParseNode(n, objs, names).value.name == n.name
  {
  }

  /** One round of the loader's loop, seen from the specification. */
  lemma {:induction false} AddStep(jsons: seq<NodeJson>, objs: ObjectMap, base: seq<Node>, i: nat, nodes: seq<Node>)
    requires i < |jsons| && LoadNodes(jsons, i, objs, base) == Good(nodes)
    ensures match ParseNode(jsons[i], objs, NamesOf(nodes))
            case Bad(e) => LoadNodes(jsons, |jsons|, objs, base) == Bad(e)
            case Good(n) =>
              var node := n.(id := |nodes|);
              && NodeRefersBelow(node, |nodes|)
              && LoadNodes(jsons, i + 1, objs, base) == Good(nodes + [node])
              && NamesOf(nodes + [node]) == NamesOf(nodes)[jsons[i].name := |nodes|]
  {
    var parsed := ParseNode(jsons[i], objs, NamesOf(nodes));
    if parsed.Bad? {
      FirstErrorStays(jsons, i + 1, objs, base);
    } else {
      ParsedNodeRefersBelow(jsons[i], objs, nodes);
      ParsedNameIs(jsons[i], objs, NamesOf(nodes));
      NamesStep(nodes, parsed.value.(id := |nodes|));
    }
  }

  method AddNodes(graph: Graph, jsons: seq<NodeJson>, objs: ObjectMap, names: Names)
      returns (r: Loaded<Names>)
    requires graph.Valid() && names == NamesOf(graph.nodes)
    modifies graph
    ensures graph.Valid() && graph.postNodes == old(graph.postNodes)
    ensures match r
            case Good(after) => LoadNodes(jsons, |jsons|, objs, old(graph.nodes)) == Good(graph.nodes) &&
              after == NamesOf(graph.nodes)
            case Bad(e) => LoadNodes(jsons, |jsons|, objs, old(graph.nodes)) == Bad(e)
  {
    var nameToId := names;
    var nodeCounter := |graph.nodes|;
    ghost var base := graph.nodes;
    assert LoadNodes(jsons, 0, objs, base) == Good(base);
    hide ParseNode, LoadNodes, TablesMatch;
    for i := 0 to |jsons|
      invariant graph.Valid() && graph.postNodes == old(graph.postNodes)
      invariant LoadNodes(jsons, i, objs, base) == Good(graph.nodes)
      invariant nodeCounter == |graph.nodes| && nameToId == NamesOf(graph.nodes)
    {
      AddStep(jsons, objs, base, i, graph.nodes);
      var parsed := ParseNode(jsons[i], objs, nameToId);
      if parsed.Bad? {
        return Bad(parsed.error);
      }
      nameToId := nameToId[jsons[i].name := nodeCounter];
      graph.AddNode(parsed.value.(id := nodeCounter));
      nodeCounter := nodeCounter + 1;
    }
    r := Good(nameToId);
  }

  method AddPostNodes(graph: Graph, posts: seq<NodeJson>, objs: ObjectMap, names: Names)
      returns (r: Loaded<()>)
    requires graph.Valid() && graph.postNodes == []
    modifies graph`postNodes
    ensures graph.Valid()
    ensures match r
            case Good(_) => LoadPosts(posts, |posts|, objs, names) == Good(graph.postNodes)
            case Bad(e) => LoadPosts(posts, |posts|, objs, names) == Bad(e)
  {
    hide ParseNode, TablesMatch;
    for i := 0 to |posts|
      invariant graph.Valid()
      invariant LoadPosts(posts, i, objs, names) == Good(graph.postNodes) && |graph.postNodes| == i
    {
      var node := ParseNode(posts[i], objs, names);
      if node.Bad? {
        FirstPostErrorStays(posts, i + 1, objs, names);
        return Bad(node.error);
      }
      graph.AddPostNode(node.value.(id := i));
    }
    r := Good(());
  }

  /** Reads a whole graph file, or reports its first error. */
  method FromJson(network: Option<NetworkJson>, jsons: seq<NodeJson>, posts: seq<NodeJson>, objs: ObjectMap)
      returns (r: Loaded<Graph>)
    ensures match r
            case Good(g) => fresh(g) && g.Valid() &&
              LoadGraph(network, jsons, posts, objs) == Good((g.nodes, g.postNodes))
            case Bad(e) => LoadGraph(network, jsons, posts, objs) == Bad(e)
  {
    var graph := new Graph();
    var nameToId: Names := map[];
    if network.Some? {
      var indexArgs := ParseArgs(network.value.indexArgs, objs, nameToId);
      if indexArgs.Bad? { return Bad(indexArgs.error); }
      nameToId := nameToId["$network" := 0];
      graph.AddNode(NetworkNode(network.value.framePackets));
    }
    assert graph.nodes == BaseNodes(network);
    assert nameToId == NamesOf(graph.nodes) by {
      if network.Some? { assert graph.nodes[..0] == []; }
    }
    var names := AddNodes(graph, jsons, objs, nameToId);
    if names.Bad? { return Bad(names.error); }
    var posted := AddPostNodes(graph, posts, objs, names.value);
    if posted.Bad? { return Bad(posted.error); }
    r := Good(graph);
  }

  // ------------------------------------------------------------- acyclicity

  /** Any dependency of a node: through its arguments, loop or condition arguments. */
  ghost predicate DependsOn(nodes: seq<Node>, from: nat, to: nat) {
    from < |nodes| && exists a <- nodes[from].args + nodes[from].loopArgs + nodes[from].conditionArgs ::
      a.predecessor.Some? && a.predecessor.value.id == to
  }

  /** A chain of dependencies, each node depending on the next. */
  ghost predicate Chain(nodes: seq<Node>, path: seq<nat>) {
    forall k | 0 <= k < |path| - 1 :: DependsOn(nodes, path[k], path[k + 1])
  }

  lemma {:induction false} LoadedGraphsAreOrdered(jsons: seq<NodeJson>, n: nat, objs: ObjectMap, base: seq<Node>)
    requires n <= |jsons| && Ordered(base) && LoadNodes(jsons, n, objs, base).Good?
    ensures Ordered(LoadNodes(jsons, n, objs, base).value)
  {
    hide ParseNode, NamesOf, NodeRefersBelow, Ordered;
    if n > 0 {
      LoadedGraphsAreOrdered(jsons, n - 1, objs, base);
      var before := LoadNodes(jsons, n - 1, objs, base).value;
      AddStep(jsons, objs, base, n - 1, before);
      OrderedStep(before, ParseNode(jsons[n - 1], objs, NamesOf(before)).value.(id := |before|));
    }
  }

  lemma {:induction false} DependencyDecreases(nodes: seq<Node>, from: nat, to: nat)
    requires Ordered(nodes) && DependsOn(nodes, from, to)
    ensures to < from
  {
    var n := nodes[from];
    var a :| a in n.args + n.loopArgs + n.conditionArgs && a.predecessor.Some? && a.predecessor.value.id == to;
    assert a in n.args || a in n.loopArgs || a in n.conditionArgs;
  }

  /** Every dependency chain in a loaded graph has fewer edges than its first node's
      id, so fewer than there are nodes, and no node depends on itself. */
  lemma {:induction false} ChainsAreShort(nodes: seq<Node>, path: seq<nat>)
    requires Ordered(nodes) && Chain(nodes, path) && |path| > 1
    ensures |path| - 1 <= path[0] < |nodes|
    ensures path[|path| - 1] < path[0]
  {
    DependencyDecreases(nodes, path[0], path[1]);
    assert DependsOn(nodes, path[0], path[1]);
    if |path| > 2 {
      forall k | 0 <= k < |path[1..]| - 1 ensures DependsOn(nodes, path[1..][k], path[1..][k + 1]) {
        assert DependsOn(nodes, path[k + 1], path[k + 1 + 1]);
      }
      ChainsAreShort(nodes, path[1..]);
    }
  }

  lemma {:induction false} OrderedPrefix(nodes: seq<Node>)
    requires nodes != [] && Ordered(nodes)
    ensures Ordered(nodes[..|nodes| - 1]) && nodes[|nodes| - 1].id == |nodes| - 1
    ensures var last := nodes[|nodes| - 1]; forall p <- ArgPreds(last) :: p < last.id
  {
    var before := nodes[..|nodes| - 1];
    assert forall k | 0 <= k < |before| :: before[k] == nodes[k];
    assert NodeRefersBelow(nodes[|nodes| - 1], |nodes| - 1);
  }

  /** The successor table is the converse of the argument dependencies. */
  lemma {:induction false} SuccessorsAreTheConverse(nodes: seq<Node>, id: nat)
    requires Ordered(nodes)
    ensures forall j: nat :: j in SuccessorsOf(nodes, id) <==> j < |nodes| && id in ArgPreds(nodes[j])
    ensures forall j <- SuccessorsOf(nodes, id) :: id < j < |nodes|
  {
    if nodes != [] {
      OrderedPrefix(nodes);
      SuccessorsAreTheConverse(nodes[..|nodes| - 1], id);
    }
  }

  /** A successor list is in insertion order, without repetition. */
  lemma {:induction false} SuccessorsAscend(nodes: seq<Node>, id: nat)
    requires Ordered(nodes)
    ensures forall x, y | 0 <= x < y < |SuccessorsOf(nodes, id)| ::
              SuccessorsOf(nodes, id)[x] < SuccessorsOf(nodes, id)[y]
  {
    if nodes != [] {
      var before := nodes[..|nodes| - 1];
      OrderedPrefix(nodes);
      SuccessorsAscend(before, id);
      SuccessorsAreTheConverse(before, id);
      var list := SuccessorsOf(before, id);
      assert forall x | 0 <= x < |list| :: list[x] in list;
    }
  }

  /** Walking the ids upwards, a node's initial status and its dependencies are all
      settled by nodes already visited. */
  lemma {:induction false} InitialNodesStart(nodes: seq<Node>)
    requires Ordered(nodes)
    ensures forall j: nat :: j in InitialsOf(nodes) <==> j < |nodes| && IsInitial(nodes[j])
    ensures |nodes| > 0 && nodes[0].name != "$network" ==> 0 in InitialsOf(nodes)
  {
    if nodes != [] {
      OrderedPrefix(nodes);
      InitialNodesStart(nodes[..|nodes| - 1]);
      assert NodeRefersBelow(nodes[0], 0);
      assert forall p :: p !in ArgPreds(nodes[0]);
    }
  }

  /** A result argument with a predecessor reads exactly that predecessor. */
  lemma {:induction false} ResultReadsItsPredecessor(a: ArgJson, objs: ObjectMap, names: Names)
    requires ParseArg(a, objs, names).Good? && a.predecessor.Some?
    requires names[a.predecessor.value.name] <= ISIZE_MAX
    ensures var arg := ParseArg(a, objs, names).value;
            && arg.predecessor.Some? && arg.predecessor.value.id == names[a.predecessor.value.name]
            && (a.typeName == "$res" ==> arg.type_ == Res(arg.predecessor.value.id))
            && (a.typeName == "$dep" ==> arg.type_ == Dep(arg.predecessor.value.id))
  {
    var id := names[a.predecessor.value.name];
    ShownIdParses(id);
  }

  lemma {:induction false} ShownIdParses(id: nat)
    requires id <= ISIZE_MAX
    ensures ParseUsize(Show(id)) == Some(id)
  {
    DigitsRoundTrip(id);
    assert Show(id)[0] in ShowNat(id);
  }
}
