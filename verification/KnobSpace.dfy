/** Graph knobs: extracting the editable numbers of a graph, writing them back, and
    when the two are inverse to each other. */
module KnobSpace {
  import opened Common
  import opened IndexText
  import Grid

  datatype FactorJson = NoFactor | Lit(n: int) | Var(name: string) | OtherFactor

  datatype PredJson = PredJson(name: Option<string>, groupBy: Option<int>)

  /** An argument is a dict with a predecessor dict, or something else. */
  datatype NodeJson = NodeJson(name: Option<string>, factor: FactorJson, args: seq<Option<PredJson>>)

  datatype InitArg = InitArg(integer: bool, value: string)

  datatype InitJson = InitJson(name: string, hasFunction: bool, args: seq<InitArg>)

  datatype GraphJson = GraphJson(inits: seq<InitJson>, nodes: seq<NodeJson>, postNodes: seq<NodeJson>)

  function All(g: GraphJson): seq<NodeJson> {
    g.nodes + g.postNodes
  }

  function SetNode(g: GraphJson, k: nat, n: NodeJson): (after: GraphJson)
    requires k < |All(g)|
    ensures All(after) == All(g)[k := n] && after.inits == g.inits && |after.nodes| == |g.nodes|
  {
    if k < |g.nodes| then g.(nodes := g.nodes[k := n]) else g.(postNodes := g.postNodes[k - |g.nodes| := n])
  }

  /** Python's `int` of a decimal literal, of any size. */
  function ParseInt(s: string): Option<int> {
    if s == [] then None
    else
      match ParseDigits(if s[0] == '-' || s[0] == '+' then s[1..] else s)
      case None => None
      case Some(d) => Some(if s[0] == '-' then -(d as int) else d)
  }

  lemma {:induction false} IntOfStr(n: int)
    ensures ParseInt(Show(n)) == Some(n)
  {
    var s := Show(n);
    if n < 0 {
      DigitsRoundTrip(-n);
      assert s[1..] == ShowNat(-n);
    } else {
      DigitsRoundTrip(n);
      assert s[0] in ShowNat(n);
    }
    hide ShowNat, ParseDigits;
  }

  // ---------------------------------------------------------------- locations

  /** Where an integer sits in the graph. */
  datatype Loc = InitLoc(init: nat) | FactorLoc(node: nat) | GroupLoc(node: nat, arg: nat)

  function InitInt(i: InitJson): Option<int> {
    if i.hasFunction || |i.args| != 1 || !i.args[0].integer then None else ParseInt(i.args[0].value)
  }

  /** The location exists, so an edit can be made there. */
  predicate Exists(g: GraphJson, l: Loc) {
    match l
    case InitLoc(i) => i < |g.inits| && g.inits[i].args != []
    case FactorLoc(k) => k < |All(g)|
    case GroupLoc(k, a) => k < |All(g)| && a < |All(g)[k].args| && All(g)[k].args[a].Some?
  }

  /** The literal integer at a location, if it holds one. */
  function ReadLoc(g: GraphJson, l: Loc): Option<int>
    requires Exists(g, l)
  {
    match l
    case InitLoc(i) => InitInt(g.inits[i])
    case FactorLoc(k) => if All(g)[k].factor.Lit? then Some(All(g)[k].factor.n) else None
    case GroupLoc(k, a) => All(g)[k].args[a].value.groupBy
  }

  /** What an edit makes of the node it addresses. */
  function EditNode(n: NodeJson, l: Loc, v: int): NodeJson
    requires l.FactorLoc? || (l.GroupLoc? && l.arg < |n.args| && n.args[l.arg].Some?)
  {
    if l.FactorLoc? then n.(factor := Lit(v))
    else n.(args := n.args[l.arg := Some(n.args[l.arg].value.(groupBy := Some(v)))])
  }

  function EditInit(init: InitJson, v: int): InitJson
    requires init.args != []
  {
    init.(args := init.args[0 := init.args[0].(value := Show(v))])
  }

  function WriteLoc(g: GraphJson, l: Loc, v: int): GraphJson
    requires Exists(g, l)
  {
    match l
    case InitLoc(i) => g.(inits := g.inits[i := EditInit(g.inits[i], v)])
    case FactorLoc(k) => SetNode(g, k, EditNode(All(g)[k], l, v))
    case GroupLoc(k, _) => SetNode(g, k, EditNode(All(g)[k], l, v))
  }

  lemma {:induction false} WriteKeepsExistence(g: GraphJson, l: Loc, v: int, m: Loc)
    requires Exists(g, l)
    ensures Exists(WriteLoc(g, l, v), m) <==> Exists(g, m)
  {
    hide Show, InitInt;
  }

  lemma {:induction false} ReadBack(g: GraphJson, l: Loc, v: int)
    requires Exists(g, l) && ReadLoc(g, l).Some?
    ensures Exists(WriteLoc(g, l, v), l) && ReadLoc(WriteLoc(g, l, v), l) == Some(v)
  {
    IntOfStr(v);
    hide Show, ParseInt;
  }

  lemma {:induction false} ReadElsewhere(g: GraphJson, l: Loc, v: int, m: Loc)
    requires Exists(g, l) && Exists(g, m) && l != m
    ensures Exists(WriteLoc(g, l, v), m) && ReadLoc(WriteLoc(g, l, v), m) == ReadLoc(g, m)
  {
    hide Show, InitInt;
  }

  lemma {:induction false} GraphsAgree(a: GraphJson, b: GraphJson)
    requires a.inits == b.inits && |a.nodes| == |b.nodes| && All(a) == All(b)
    ensures a == b
  {
    assert a.nodes == All(a)[..|a.nodes|] && a.postNodes == All(a)[|a.nodes|..];
    assert b.nodes == All(b)[..|b.nodes|] && b.postNodes == All(b)[|b.nodes|..];
  }

  lemma {:induction false} NodeEditsCommute(n: NodeJson, l: Loc, v: int, m: Loc, w: int)
    requires l != m && !l.InitLoc? && !m.InitLoc? && l.node == m.node
    requires l.FactorLoc? || (l.arg < |n.args| && n.args[l.arg].Some?)
    requires m.FactorLoc? || (m.arg < |n.args| && n.args[m.arg].Some?)
    ensures m.FactorLoc? || (m.arg < |EditNode(n, l, v).args| && EditNode(n, l, v).args[m.arg].Some?)
    ensures l.FactorLoc? || (l.arg < |EditNode(n, m, w).args| && EditNode(n, m, w).args[l.arg].Some?)
    ensures EditNode(EditNode(n, l, v), m, w) == EditNode(EditNode(n, m, w), l, v)
  {
    if l.GroupLoc? && m.GroupLoc? {
      assert EditNode(EditNode(n, l, v), m, w).args == EditNode(EditNode(n, m, w), l, v).args;
    }
  }

  lemma {:induction false} WritesCommute(g: GraphJson, l: Loc, v: int, m: Loc, w: int)
    requires Exists(g, l) && Exists(g, m) && l != m
    ensures Exists(WriteLoc(g, l, v), m) && Exists(WriteLoc(g, m, w), l)
    ensures WriteLoc(WriteLoc(g, l, v), m, w) == WriteLoc(WriteLoc(g, m, w), l, v)
  {
    WriteKeepsExistence(g, l, v, m);
    WriteKeepsExistence(g, m, w, l);
    hide Show, InitInt, SetNode;
    var a, b := WriteLoc(WriteLoc(g, l, v), m, w), WriteLoc(WriteLoc(g, m, w), l, v);
    assert a.inits == b.inits;
    if !l.InitLoc? && !m.InitLoc? && l.node == m.node {
      NodeEditsCommute(All(g)[l.node], l, v, m, w);
    }
    assert All(a) == All(b);
    GraphsAgree(a, b);
  }

  // -------------------------------------------------------------------- edits

  datatype EditError = NoSuchInit(name: string) | NoSuchNode(name: string) | BadTarget

  datatype Edited<+T> = Done(value: T) | Failed(error: EditError)

  datatype IntEdit = IntEdit(path: Grid.Path, value: int)

  function InitNames(g: GraphJson): seq<Option<string>> {
    seq(|g.inits|, i requires 0 <= i < |g.inits| => Some(g.inits[i].name))
  }

  function NodeNames(g: GraphJson): seq<Option<string>> {
    seq(|All(g)|, i requires 0 <= i < |All(g)| => All(g)[i].name)
  }

  /** `next(.., None)` over names; -1 when there is none. */
  function First(names: seq<Option<string>>, x: Option<string>): (k: int)
    ensures -1 <= k < |names|
    ensures k >= 0 ==> names[k] == x && forall j | 0 <= j < k :: names[j] != x
    ensures k == -1 ==> forall j | 0 <= j < |names| :: names[j] != x
  {
    if names == [] then -1
    else
      var n := |names| - 1;
      var k := First(names[..n], x);
      if k >= 0 then k else if names[n] == x then n else -1
  }

  /** The location a path leads to: the first initialization or node of its name. */
  function Target(g: GraphJson, p: Grid.Path): Edited<Loc> {
    match p
    case InitPath(name) =>
      var i := First(InitNames(g), Some(name));
      if i < 0 then Failed(NoSuchInit(name))
      else if Exists(g, InitLoc(i)) then Done(InitLoc(i)) else Failed(BadTarget)
    case FactorPath(name) =>
      var k := First(NodeNames(g), Some(name));
      if k < 0 then Failed(NoSuchNode(name)) else Done(FactorLoc(k))
    case GroupPath(name, a) =>
      var k := First(NodeNames(g), Some(name));
      if k < 0 then Failed(NoSuchNode(name))
      else if Exists(g, GroupLoc(k, a)) then Done(GroupLoc(k, a)) else Failed(BadTarget)
  }

  lemma {:induction false} TargetExists(g: GraphJson, p: Grid.Path)
    requires Target(g, p).Done?
    ensures Exists(g, Target(g, p).value)
  {
  }

  function Write(g: GraphJson, e: IntEdit): Edited<GraphJson> {
    match Target(g, e.path)
    case Failed(error) => Failed(error)
    case Done(l) =>
      TargetExists(g, e.path);
      Done(WriteLoc(g, l, e.value))
  }

  function WriteAll(g: GraphJson, edits: seq<IntEdit>, n: nat): Edited<GraphJson>
    requires n <= |edits|
  {
    if n == 0 then Done(g)
    else
      match WriteAll(g, edits, n - 1)
      case Failed(error) => Failed(error)
      case Done(before) => Write(before, edits[n - 1])
  }

  lemma {:induction false} TargetStays(g: GraphJson, l: Loc, v: int, p: Grid.Path)
    requires Exists(g, l)
    ensures Target(WriteLoc(g, l, v), p) == Target(g, p)
  {
    var after := WriteLoc(g, l, v);
    NamesStay(g, l, v);
    hide WriteLoc;
    forall m ensures Exists(after, m) <==> Exists(g, m) { WriteKeepsExistence(g, l, v, m); }
    hide Exists;
  }

  lemma {:induction false} NamesStay(g: GraphJson, l: Loc, v: int)
    requires Exists(g, l)
    ensures InitNames(WriteLoc(g, l, v)) == InitNames(g) && NodeNames(WriteLoc(g, l, v)) == NodeNames(g)
  {
    hide Show;
  }

  /** Different paths never lead to the same place. */
  lemma {:induction false} TargetsDiffer(g: GraphJson, p: Grid.Path, q: Grid.Path)
    requires Target(g, p).Done? && Target(g, q).Done?
    ensures Target(g, p) == Target(g, q) <==> p == q
  {
    hide Exists;
  }

  /** Edits to different paths commute, on any graph; if one of them is impossible, it
      is so in either order. */
  lemma {:induction false} EditsCommute(g: GraphJson, d: IntEdit, e: IntEdit)
    requires d.path != e.path
    ensures var one, other := WriteAll(g, [d, e], 2), WriteAll(g, [e, d], 2);
            && (one.Done? <==> other.Done?)
            && (one.Done? ==> one == other)
  {
    TwoWrites(g, d, e);
    TwoWrites(g, e, d);
    if Target(g, d.path).Done? && Target(g, e.path).Done? {
      TargetExists(g, d.path);
      TargetExists(g, e.path);
      TargetsDiffer(g, d.path, e.path);
      WritesCommute(g, Target(g, d.path).value, d.value, Target(g, e.path).value, e.value);
    }
    hide *;
  }

  lemma {:induction false} TwoWrites(g: GraphJson, d: IntEdit, e: IntEdit)
    ensures var r := WriteAll(g, [d, e], 2);
            && (r.Done? <==> Target(g, d.path).Done? && Target(g, e.path).Done?)
            && (r.Done? ==>
                  && Exists(g, Target(g, d.path).value)
                  && Exists(WriteLoc(g, Target(g, d.path).value, d.value), Target(g, e.path).value)
                  && r.value == WriteLoc(WriteLoc(g, Target(g, d.path).value, d.value), Target(g, e.path).value,
                       e.value))
  {
    hide WriteLoc, Target;
    assert WriteAll(g, [d, e], 1) == Write(g, d) by { assert WriteAll(g, [d, e], 0) == Done(g); }
    assert WriteAll(g, [d, e], 2) == if Write(g, d).Done? then Write(Write(g, d).value, e) else Write(g, d);
    if Target(g, d.path).Done? {
      TargetExists(g, d.path);
      TargetStays(g, Target(g, d.path).value, d.value, e.path);
      if Target(g, e.path).Done? {
        TargetExists(WriteLoc(g, Target(g, d.path).value, d.value), e.path);
      }
    }
  }

  // --------------------------------------------------------------- extraction

  datatype GraphKnob = GraphKnob(name: string, path: Grid.Path, domain: seq<int>, base: int)

  function KnobName(p: Grid.Path): string {
    match p
    case InitPath(init) => "graph:init." + init
    case FactorPath(node) => "graph:node." + node + ".factor"
    case GroupPath(node, arg) => "graph:node." + node + ".arg" + Show(arg) + ".group_by"
  }

  /** What extraction looks at besides the numbers themselves. */
  datatype NodeShape = NodeShape(name: string, literal: bool, variable: Option<string>, grouped: seq<bool>)

  function ShapeOf(n: NodeJson): NodeShape {
    NodeShape(if n.name.Some? then n.name.value else "?",
              n.factor.Lit?,
              if n.factor.Var? then Some(n.factor.name) else None,
              seq(|n.args|, a requires 0 <= a < |n.args| => n.args[a].Some? && n.args[a].value.groupBy.Some?))
  }

  function Shapes(g: GraphJson): seq<NodeShape> {
    seq(|All(g)|, k requires 0 <= k < |All(g)| => ShapeOf(All(g)[k]))
  }

  /** Names of the initializations that are a literal integer, by position. */
  function IntNames(g: GraphJson): seq<Option<string>> {
    seq(|g.inits|, i requires 0 <= i < |g.inits| => if InitInt(g.inits[i]).Some? then Some(g.inits[i].name) else None)
  }

  /** The last position of a name, as a dict keeps it; -1 when there is none. */
  function Last(names: seq<Option<string>>, name: string): (k: int)
    ensures -1 <= k < |names|
    ensures k >= 0 ==> names[k] == Some(name) && forall j | k < j < |names| :: names[j] != Some(name)
    ensures k == -1 ==> forall j | 0 <= j < |names| :: names[j] != Some(name)
  {
    if names == [] then -1
    else if names[|names| - 1] == Some(name) then |names| - 1
    else Last(names[..|names| - 1], name)
  }

  predicate TextLess(a: string, b: string) {
    if b == [] then false
    else if a == [] then true
    else a[0] < b[0] || (a[0] == b[0] && TextLess(a[1..], b[1..]))
  }

  function InsertName(names: seq<string>, x: string): (out: seq<string>)
    ensures forall y :: y in out <==> y in names || y == x
  {
    if names == [] then [x]
    else if TextLess(x, names[0]) then [x] + names
    else [names[0]] + InsertName(names[1..], x)
  }

  function SortNames(names: seq<string>): (out: seq<string>)
    ensures forall y :: y in out <==> y in names
  {
    if names == [] then [] else InsertName(SortNames(names[..|names| - 1]), names[|names| - 1])
  }

  /** Integer initializations used as a factor, in order of first use. */
  function UsedInits(shapes: seq<NodeShape>, ints: seq<Option<string>>, n: nat): (used: seq<string>)
    requires n <= |shapes|
    ensures forall x <- used :: Last(ints, x) >= 0
  {
    if n == 0 then []
    else
      var before, v := UsedInits(shapes, ints, n - 1), shapes[n - 1].variable;
      if v.Some? && Last(ints, v.value) >= 0 && v.value !in before then before + [v.value] else before
  }

  /** A knob's path and the location it was read from. */
  datatype Site = Site(path: Grid.Path, loc: Loc)

  function InitSites(names: seq<string>, ints: seq<Option<string>>): seq<Site>
    requires forall x <- names :: Last(ints, x) >= 0
  {
    if names == [] then []
    else
      var x := names[|names| - 1];
      InitSites(names[..|names| - 1], ints) + [Site(Grid.InitPath(x), InitLoc(Last(ints, x)))]
  }

  function ArgSites(shape: NodeShape, k: nat, n: nat): seq<Site>
    requires n <= |shape.grouped|
  {
    if n == 0 then []
    else
      var before := ArgSites(shape, k, n - 1);
      if shape.grouped[n - 1] then before + [Site(Grid.GroupPath(shape.name, n - 1), GroupLoc(k, n - 1))] else before
  }

  function NodeSites(shapes: seq<NodeShape>, n: nat): seq<Site>
    requires n <= |shapes|
  {
    if n == 0 then []
    else
      var shape := shapes[n - 1];
      NodeSites(shapes, n - 1)
      + (if shape.literal then [Site(Grid.FactorPath(shape.name), FactorLoc(n - 1))] else [])
      + ArgSites(shape, n - 1, |shape.grouped|)
  }

  /** All knob sites in extraction order: shared initializations by name, then node by
      node the literal factor and the grouped arguments. */
  function Sites(g: GraphJson): seq<Site> {
    var shapes, ints := Shapes(g), IntNames(g);
    InitSites(SortNames(UsedInits(shapes, ints, |shapes|)), ints) + NodeSites(shapes, |shapes|)
  }

  /** Sites sit on literal integers. */
  predicate Readable(g: GraphJson, s: Site) {
    Exists(g, s.loc) && ReadLoc(g, s.loc).Some?
  }

  lemma {:induction false} InitSitesReadable(g: GraphJson, names: seq<string>)
    requires forall x <- names :: Last(IntNames(g), x) >= 0
    ensures forall s <- InitSites(names, IntNames(g)) :: Readable(g, s)
  {
    if names != [] {
      InitSitesReadable(g, names[..|names| - 1]);
      var i := Last(IntNames(g), names[|names| - 1]);
      assert InitInt(g.inits[i]).Some?;
    }
  }

  lemma {:induction false} ArgSitesReadable(g: GraphJson, k: nat, n: nat)
    requires k < |All(g)| && n <= |All(g)[k].args|
    ensures forall s <- ArgSites(ShapeOf(All(g)[k]), k, n) :: Readable(g, s)
  {
    if n > 0 {
      ArgSitesReadable(g, k, n - 1);
    }
  }

  lemma {:induction false} NodeSitesReadable(g: GraphJson, n: nat)
    requires n <= |All(g)|
    ensures forall s <- NodeSites(Shapes(g), n) :: Readable(g, s)
  {
    if n > 0 {
      NodeSitesReadable(g, n - 1);
      ArgSitesReadable(g, n - 1, |All(g)[n - 1].args|);
    }
  }

  lemma {:induction false} SitesReadable(g: GraphJson)
    ensures forall s <- Sites(g) :: Readable(g, s)
  {
    var shapes, ints := Shapes(g), IntNames(g);
    InitSitesReadable(g, SortNames(UsedInits(shapes, ints, |shapes|)));
    NodeSitesReadable(g, |shapes|);
    hide InitSites, NodeSites, Readable, Shapes, IntNames;
  }

  /** Writing a literal integer where one was leaves everything extraction decides on
      unchanged. */
  lemma {:induction false} SitesStay(g: GraphJson, l: Loc, v: int)
    requires Exists(g, l) && ReadLoc(g, l).Some?
    ensures Sites(WriteLoc(g, l, v)) == Sites(g)
  {
    var after := WriteLoc(g, l, v);
    IntOfStr(v);
    hide Show, ParseInt;
    assert IntNames(after) == IntNames(g);
    if l.FactorLoc? || l.GroupLoc? {
      assert ShapeOf(All(after)[l.node]) == ShapeOf(All(g)[l.node]);
    }
    assert Shapes(after) == Shapes(g);
  }
}
