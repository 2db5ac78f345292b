/** Extraction and editing of graph knobs as a lens: the methods, and the laws that
    connect them. */
module KnobLens {
  import opened Common
  import opened IndexText
  import opened KnobSpace
  import Grid

  // --------------------------------------------------------------- extraction

  /** A node's factor as an integer: literal, or the named initialization's value. */
  function ResolveBase(g: GraphJson, n: NodeJson): Option<int> {
    match n.factor
    case Lit(v) => Some(v)
    case Var(name) =>
      var i := Last(IntNames(g), name);
      if i < 0 then None else InitInt(g.inits[i])
    case _ => None
  }

  /** Group widths worth trying: the divisors of the predecessor's factor. */
  function GroupDomain(g: GraphJson, pred: PredJson, groupBy: int): seq<int> {
    var k := First(NodeNames(g), pred.name);
    var base := if k < 0 then None else ResolveBase(g, All(g)[k]);
    if base.Some? && base.value != 0 then Grid.DivisorsUpTo(base.value, base.value) else [groupBy]
  }

  function KnobAt(g: GraphJson, s: Site): GraphKnob
    requires Readable(g, s)
  {
    var base := ReadLoc(g, s.loc).value;
    GraphKnob(KnobName(s.path), s.path,
              if s.loc.GroupLoc? then GroupDomain(g, All(g)[s.loc.node].args[s.loc.arg].value, base)
                else Grid.FactorLadder(base),
              base)
  }

  function KnobsAt(g: GraphJson, sites: seq<Site>): seq<GraphKnob>
    requires forall s <- sites :: Readable(g, s)
  {
    seq(|sites|, i requires 0 <= i < |sites| => assert sites[i] in sites; KnobAt(g, sites[i]))
  }

  function GraphKnobs(g: GraphJson): seq<GraphKnob> {
    SitesReadable(g);
    KnobsAt(g, Sites(g))
  }

  lemma {:induction false} KnobsAppend(g: GraphJson, a: seq<Site>, b: seq<Site>)
    requires forall s <- a + b :: Readable(g, s)
    ensures (forall s <- a :: Readable(g, s)) && (forall s <- b :: Readable(g, s))
    ensures KnobsAt(g, a + b) == KnobsAt(g, a) + KnobsAt(g, b)
  {
    hide Readable, KnobAt;
    assert forall s <- a :: s in a + b;
    assert forall s <- b :: s in a + b;
  }

  /** The dict of literal initializations: the last one of a name wins. */
  method CollectInitValues(g: GraphJson) returns (values: map<string, int>)
    ensures forall x: string :: x in values <==> Last(IntNames(g), x) >= 0
    ensures forall x <- values :: InitInt(g.inits[Last(IntNames(g), x)]) == Some(values[x])
  {
    values := map[];
    var ints := IntNames(g);
    assert |ints| == |g.inits| && ints[..0] == [] && forall x: string :: Last([], x) == -1;
    hide Last, InitInt, IntNames;
    for i := 0 to |g.inits|
      invariant forall x: string :: x in values <==> Last(ints[..i], x) >= 0
      invariant forall x <- values :: InitInt(g.inits[Last(ints[..i], x)]) == Some(values[x])
    {
      forall x: string ensures Last(ints[..i + 1], x) == if ints[i] == Some(x) then i else Last(ints[..i], x) {
        LastStep(ints, i, x);
      }
      IntNameAt(g, i);
      var value := InitInt(g.inits[i]);
      if value.Some? {
        values := values[g.inits[i].name := value.value];
      }
    }
    assert ints[..|g.inits|] == ints;
  }

  lemma {:induction false} LastStep(names: seq<Option<string>>, i: nat, x: string)
    requires i < |names|
    ensures Last(names[..i + 1], x) == if names[i] == Some(x) then i else Last(names[..i], x)
  {
    assert names[..i + 1][..i] == names[..i];
  }

  lemma {:induction false} IntNameAt(g: GraphJson, i: nat)
    requires i < |g.inits|
    ensures |IntNames(g)| == |g.inits|
    ensures IntNames(g)[i] == if InitInt(g.inits[i]).Some? then Some(g.inits[i].name) else None
  {
  }

  lemma {:induction false} VariableOf(g: GraphJson, i: nat)
    requires i < |All(g)|
    ensures |Shapes(g)| == |All(g)|
    ensures Shapes(g)[i].variable == if All(g)[i].factor.Var? then Some(All(g)[i].factor.name) else None
  {
  }

  lemma {:induction false} NoneUsed(g: GraphJson)
    ensures UsedInits(Shapes(g), IntNames(g), 0) == []
  {
  }

  lemma {:induction false} OneMoreUsed(g: GraphJson, i: nat)
    requires i < |Shapes(g)|
    ensures var before, v := UsedInits(Shapes(g), IntNames(g), i), Shapes(g)[i].variable;
            UsedInits(Shapes(g), IntNames(g), i + 1) ==
            if v.Some? && Last(IntNames(g), v.value) >= 0 && v.value !in before then before + [v.value] else before
  {
    hide Shapes, IntNames, Last;
  }

  /** Names that some node uses as its factor, sorted. */
  method CollectFactorInits(g: GraphJson, values: map<string, int>) returns (names: seq<string>)
    requires forall x: string :: x in values <==> Last(IntNames(g), x) >= 0
    ensures names == SortNames(UsedInits(Shapes(g), IntNames(g), |Shapes(g)|))
  {
    assert |Shapes(g)| == |All(g)|;
    NoneUsed(g);
    hide Shapes, ShapeOf, IntNames, Last, SortNames, UsedInits;
    var nodes := All(g);
    var used: seq<string> := [];
    for i := 0 to |nodes|
      invariant |Shapes(g)| == |nodes| && used == UsedInits(Shapes(g), IntNames(g), i)
    {
      VariableOf(g, i);
      OneMoreUsed(g, i);
      if nodes[i].factor.Var? && nodes[i].factor.name in values && nodes[i].factor.name !in used {
        used := used + [nodes[i].factor.name];
      }
    }
    names := SortNames(used);
  }

  method InitKnobs(g: GraphJson, names: seq<string>, values: map<string, int>) returns (knobs: seq<GraphKnob>)
    requires forall x: string :: x in values <==> Last(IntNames(g), x) >= 0
    requires forall x <- values :: InitInt(g.inits[Last(IntNames(g), x)]) == Some(values[x])
    requires forall x <- names :: Last(IntNames(g), x) >= 0
    ensures forall s <- InitSites(names, IntNames(g)) :: Readable(g, s)
    ensures knobs == KnobsAt(g, InitSites(names, IntNames(g)))
  {
    var ints := IntNames(g);
    knobs := [];
    InitSitesReadable(g, []);
    for i := 0 to |names|
      invariant forall x <- names[..i] :: Last(ints, x) >= 0
      invariant forall s <- InitSites(names[..i], ints) :: Readable(g, s)
      invariant knobs == KnobsAt(g, InitSites(names[..i], ints))
    {
      var x := names[i];
      var site := Site(Grid.InitPath(x), InitLoc(Last(ints, x)));
      assert names[..i + 1][..i] == names[..i] && names[..i + 1][i] == x && x in names;
      InitSitesReadable(g, names[..i + 1]);
      KnobsAppend(g, InitSites(names[..i], ints), [site]);
      InitKnobIs(g, x, values[x]);
      knobs := knobs + [GraphKnob(KnobName(Grid.InitPath(x)), Grid.InitPath(x), Grid.FactorLadder(values[x]),
        values[x])];
    }
    assert names[..|names|] == names;
  }

  lemma {:induction false} InitKnobIs(g: GraphJson, x: string, value: int)
    requires Last(IntNames(g), x) >= 0 && InitInt(g.inits[Last(IntNames(g), x)]) == Some(value)
    ensures var site := Site(Grid.InitPath(x), InitLoc(Last(IntNames(g), x)));
            && Readable(g, site)
            && KnobsAt(g, [site]) == [GraphKnob(KnobName(Grid.InitPath(x)), Grid.InitPath(x), Grid.FactorLadder(value),
                 value)]
  {
  }

  /** One node's knobs: its literal factor, then its grouped arguments. */
  method NodeKnobs(g: GraphJson, k: nat) returns (knobs: seq<GraphKnob>)
    requires k < |All(g)|
    ensures forall s <- OwnSites(g, k) :: Readable(g, s)
    ensures knobs == KnobsAt(g, OwnSites(g, k))
  {
    var node := All(g)[k];
    var shape := ShapeOf(node);
    ghost var factorSites := if shape.literal then [Site(Grid.FactorPath(shape.name), FactorLoc(k))] else [];
    knobs := [];
    if node.factor.Lit? {
      knobs := [GraphKnob(KnobName(Grid.FactorPath(shape.name)), Grid.FactorPath(shape.name),
                          Grid.FactorLadder(node.factor.n), node.factor.n)];
    }
    assert (forall s <- factorSites :: Readable(g, s)) && knobs == KnobsAt(g, factorSites);
    for a := 0 to |node.args|
      invariant forall s <- factorSites + ArgSites(shape, k, a) :: Readable(g, s)
      invariant knobs == KnobsAt(g, factorSites + ArgSites(shape, k, a))
    {
      ArgSitesReadable(g, k, a + 1);
      if node.args[a].Some? && node.args[a].value.groupBy.Some? {
        var pred := node.args[a].value;
        var site := Site(Grid.GroupPath(shape.name, a), GroupLoc(k, a));
        GroupKnobIs(g, k, a);
        hide KnobAt, Readable, KnobsAt;
        assert factorSites + ArgSites(shape, k, a + 1) == (factorSites + ArgSites(shape, k, a)) + [site];
        KnobsAppend(g, factorSites + ArgSites(shape, k, a), [site]);
        knobs := knobs + [GraphKnob(KnobName(site.path), site.path, GroupDomain(g, pred, pred.groupBy.value),
          pred.groupBy.value)];
      }
    }
  }

  lemma {:induction false} GroupKnobIs(g: GraphJson, k: nat, a: nat)
    requires k < |All(g)| && a < |All(g)[k].args|
    requires All(g)[k].args[a].Some? && All(g)[k].args[a].value.groupBy.Some?
    ensures var site := Site(Grid.GroupPath(ShapeOf(All(g)[k]).name, a), GroupLoc(k, a));
            var pred := All(g)[k].args[a].value;
            && Readable(g, site)
            && KnobsAt(g, [site]) ==
               [GraphKnob(KnobName(site.path), site.path, GroupDomain(g, pred, pred.groupBy.value), pred.groupBy.value)]
  {
    hide GroupDomain;
  }

  function OwnSites(g: GraphJson, k: nat): seq<Site>
    requires k < |All(g)|
  {
    var shape := ShapeOf(All(g)[k]);
    (if shape.literal then [Site(Grid.FactorPath(shape.name), FactorLoc(k))] else []) +
      ArgSites(shape, k, |shape.grouped|)
  }

  lemma {:induction false} NodeSitesGrow(g: GraphJson, n: nat)
    requires n < |All(g)|
    ensures NodeSites(Shapes(g), n + 1) == NodeSites(Shapes(g), n) + OwnSites(g, n)
  {
    assert Shapes(g)[n] == ShapeOf(All(g)[n]);
    hide ShapeOf, ArgSites;
  }

  predicate AllLiteral(g: GraphJson, names: seq<string>) {
    forall x <- names :: Last(IntNames(g), x) >= 0
  }

  /** The sites of the initializations, then of the first n nodes. */
  ghost function SitesUpTo(g: GraphJson, names: seq<string>, n: nat): seq<Site>
    requires n <= |All(g)| && AllLiteral(g, names)
  {
    InitSites(names, IntNames(g)) + NodeSites(Shapes(g), n)
  }

  lemma {:induction false} SitesUpToReadable(g: GraphJson, names: seq<string>, n: nat)
    requires n <= |All(g)| && AllLiteral(g, names)
    ensures forall s <- SitesUpTo(g, names, n) :: Readable(g, s)
  {
    InitSitesReadable(g, names);
    NodeSitesReadable(g, n);
    hide InitSites, NodeSites, Readable, Shapes, IntNames;
  }

  lemma {:induction false} SitesUpToGrow(g: GraphJson, names: seq<string>, n: nat)
    requires n <= |All(g)| && AllLiteral(g, names)
    ensures n == 0 ==> SitesUpTo(g, names, n) == InitSites(names, IntNames(g))
    ensures n < |All(g)| ==> SitesUpTo(g, names, n + 1) == SitesUpTo(g, names, n) + OwnSites(g, n)
  {
    SitesUpToIs(g, names, n);
    if n < |All(g)| {
      SitesUpToIs(g, names, n + 1);
      NodeSitesGrow(g, n);
    }
    NoNodeSites(g);
    hide *;
    var inits := InitSites(names, IntNames(g));
    if n == 0 {
      assert inits + [] == inits;
    }
    if n < |All(g)| {
      Regroup(inits, NodeSites(Shapes(g), n), OwnSites(g, n));
    }
  }

  lemma {:induction false} Regroup(a: seq<Site>, b: seq<Site>, c: seq<Site>)
    ensures a + (b + c) == (a + b) + c
  {
  }

  lemma {:induction false} SitesUpToIs(g: GraphJson, names: seq<string>, n: nat)
    requires n <= |All(g)| && AllLiteral(g, names)
    ensures |Shapes(g)| == |All(g)|
    ensures SitesUpTo(g, names, n) == InitSites(names, IntNames(g)) + NodeSites(Shapes(g), n)
  {
    hide InitSites, NodeSites, ShapeOf;
  }

  lemma {:induction false} NoNodeSites(g: GraphJson)
    ensures NodeSites(Shapes(g), 0) == []
  {
  }

  lemma {:induction false} AllSites(g: GraphJson)
    ensures var names := SortNames(UsedInits(Shapes(g), IntNames(g), |Shapes(g)|));
            SitesUpTo(g, names, |All(g)|) == Sites(g)
  {
  }

  /** Continues the list of the initializations' knobs with every node's. */
  method AllNodeKnobs(g: GraphJson, ghost names: seq<string>, start: seq<GraphKnob>) returns (knobs: seq<GraphKnob>)
    requires AllLiteral(g, names) && forall s <- SitesUpTo(g, names, 0) :: Readable(g, s)
    requires start == KnobsAt(g, SitesUpTo(g, names, 0))
    ensures forall s <- SitesUpTo(g, names, |All(g)|) :: Readable(g, s)
    ensures knobs == KnobsAt(g, SitesUpTo(g, names, |All(g)|))
  {
    hide *;
    knobs := start;
    for k := 0 to |All(g)|
      invariant forall s <- SitesUpTo(g, names, k) :: Readable(g, s)
      invariant knobs == KnobsAt(g, SitesUpTo(g, names, k))
    {
      var own := NodeKnobs(g, k);
      SitesUpToGrow(g, names, k);
      SitesUpToReadable(g, names, k + 1);
      KnobsAppend(g, SitesUpTo(g, names, k), OwnSites(g, k));
      knobs := knobs + own;
    }
  }

  method ExtractKnobs(g: GraphJson) returns (knobs: seq<GraphKnob>)
    ensures knobs == GraphKnobs(g)
  {
    var values := CollectInitValues(g);
    var names := CollectFactorInits(g, values);
    AllSites(g);
    assert AllLiteral(g, names);
    SitesUpToGrow(g, names, 0);
    hide KnobsAt, Readable, SitesUpTo, InitSites, UsedInits, SortNames, Shapes, IntNames, Last, Sites;
    knobs := InitKnobs(g, names, values);
    knobs := AllNodeKnobs(g, names, knobs);
  }

  // ------------------------------------------------------------------ editing

  /** A parsed graph file, edited in place. */
  class GraphDict {
    var inits: seq<InitJson>
    var nodes: seq<NodeJson>
    var postNodes: seq<NodeJson>

    function Value(): GraphJson
      reads this
    {
      GraphJson(inits, nodes, postNodes)
    }

    constructor (g: GraphJson)
      ensures Value() == g
    {
      inits, nodes, postNodes := g.inits, g.nodes, g.postNodes;
    }

    method DeepCopy() returns (copy: GraphDict)
      ensures fresh(copy) && copy.Value() == Value()
    {
      copy := new GraphDict(GraphJson(inits, nodes, postNodes));
    }

    /** Applies one edit, or reports why it is impossible and changes nothing. */
    method Apply(e: IntEdit) returns (error: Option<EditError>)
      modifies this
      ensures match Write(old(Value()), e)
              case Done(g) => error == None && Value() == g
              case Failed(x) => error == Some(x) && Value() == old(Value())
    {
      var g := Value();
      match e.path {
        case InitPath(name) =>
          var i := First(InitNames(g), Some(name));
          if i < 0 { return Some(NoSuchInit(name)); }
          if inits[i].args == [] { return Some(BadTarget); }
          inits := inits[i := EditInit(inits[i], e.value)];
        case FactorPath(name) =>
          var k := First(NodeNames(g), Some(name));
          if k < 0 { return Some(NoSuchNode(name)); }
          SetNodeAt(k, (nodes + postNodes)[k].(factor := Lit(e.value)));
        case GroupPath(name, a) =>
          var k := First(NodeNames(g), Some(name));
          if k < 0 { return Some(NoSuchNode(name)); }
          var node := (nodes + postNodes)[k];
          if a >= |node.args| || node.args[a].None? { return Some(BadTarget); }
          SetNodeAt(k, node.(args := node.args[a := Some(node.args[a].value.(groupBy := Some(e.value)))]));
      }
      error := None;
    }

    method SetNodeAt(k: nat, n: NodeJson)
      requires k < |All(Value())|
      modifies this
      ensures Value() == SetNode(old(Value()), k, n)
    {
      if k < |nodes| {
        nodes := nodes[k := n];
      } else {
        postNodes := postNodes[k - |nodes| := n];
      }
    }
  }

  lemma {:induction false} FirstFailureStays(g: GraphJson, edits: seq<IntEdit>, n: nat)
    requires n <= |edits| && WriteAll(g, edits, n).Failed?
    ensures WriteAll(g, edits, |edits|) == WriteAll(g, edits, n)
    decreases |edits| - n
  {
    if n < |edits| {
      FirstFailureStays(g, edits, n + 1);
    }
  }

  lemma {:induction false} NoEdits(g: GraphJson, edits: seq<IntEdit>)
    ensures WriteAll(g, edits, 0) == Done(g)
  {
  }

  lemma {:induction false} OneMoreWrite(g: GraphJson, edits: seq<IntEdit>, i: nat, before: GraphJson)
    requires i < |edits| && WriteAll(g, edits, i) == Done(before)
    ensures WriteAll(g, edits, i + 1) == Write(before, edits[i])
  {
  }

  /** Edits a deep copy; the given graph is not touched, whatever happens. */
  method ApplyGraphEdits(graph: GraphDict, edits: seq<IntEdit>) returns (r: Edited<GraphDict>)
    ensures match r
            case Done(copy) => fresh(copy) && WriteAll(graph.Value(), edits, |edits|) == Done(copy.Value())
            case Failed(x) => WriteAll(graph.Value(), edits, |edits|) == Failed(x)
  {
    hide *;
    var copy := graph.DeepCopy();
    ghost var g := graph.Value();
    NoEdits(g, edits);
    for i := 0 to |edits|
      invariant fresh(copy) && graph.Value() == g && WriteAll(g, edits, i) == Done(copy.Value())
    {
      OneMoreWrite(g, edits, i, copy.Value());
      var error := copy.Apply(edits[i]);
      if error.Some? {
        FirstFailureStays(g, edits, i + 1);
        return Failed(error.value);
      }
    }
    r := Done(copy);
  }

  // --------------------------------------------------------------------- laws

  /** Every knob's path leads back to where the knob was read. */
  ghost predicate Addressable(g: GraphJson) {
    forall s <- Sites(g) :: Target(g, s.path) == Done(s.loc)
  }

  /** The value the first n edits leave at a path. */
  function Written(edits: seq<IntEdit>, n: nat, p: Grid.Path, old_: int): int
    requires n <= |edits|
  {
    if n == 0 then old_
    else if edits[n - 1].path == p then edits[n - 1].value
    else Written(edits, n - 1, p, old_)
  }

  predicate KnownPath(g: GraphJson, p: Grid.Path) {
    exists s <- Sites(g) :: s.path == p
  }

  predicate KnownPaths(g: GraphJson, edits: seq<IntEdit>) {
    forall i | 0 <= i < |edits| :: KnownPath(g, edits[i].path)
  }

  /** The graph after an edit has the same sites, each holding what was last written. */
  ghost predicate Holds(g: GraphJson, after: GraphJson, edits: seq<IntEdit>, n: nat)
    requires n <= |edits|
  {
    && Sites(after) == Sites(g) && Addressable(after)
    && forall s <- Sites(g) :: Readable(g, s) && Readable(after, s) &&
         ReadLoc(after, s.loc) == Some(Written(edits, n, s.path, ReadLoc(g, s.loc).value))
  }

  lemma {:induction false} OneMoreEdit(g: GraphJson, before: GraphJson, edits: seq<IntEdit>, n: nat, t: Site)
    requires 0 < n <= |edits| && Holds(g, before, edits, n - 1)
    requires t in Sites(g) && t.path == edits[n - 1].path
    ensures Write(before, edits[n - 1]).Done?
    ensures Holds(g, Write(before, edits[n - 1]).value, edits, n)
  {
    hide Sites, InitInt, Show;
    var e := edits[n - 1];
    assert Target(before, e.path) == Done(t.loc);
    var after := WriteLoc(before, t.loc, e.value);
    SitesStay(before, t.loc, e.value);
    forall p ensures Target(after, p) == Target(before, p) { TargetStays(before, t.loc, e.value, p); }
    hide Target, WriteLoc;
    forall s | s in Sites(g)
      ensures Readable(after, s) && ReadLoc(after, s.loc) == Some(Written(edits, n, s.path, ReadLoc(g, s.loc).value))
    {
      if s.path == e.path {
        ReadBack(before, t.loc, e.value);
      } else {
        TargetsDiffer(before, s.path, e.path);
        ReadElsewhere(before, t.loc, e.value, s.loc);
      }
    }
  }

  /** Applying any edits of knobs and extracting again: the same sites, in the same
      order, each holding the value last written to it, or its old one. */
  lemma {:induction false} PutThenGet(g: GraphJson, edits: seq<IntEdit>, n: nat)
    requires Addressable(g) && KnownPaths(g, edits) && n <= |edits|
    ensures WriteAll(g, edits, n).Done? && Holds(g, WriteAll(g, edits, n).value, edits, n)
  {
    SitesReadable(g);
    hide Sites, Target, Write;
    if n > 0 {
      PutThenGet(g, edits, n - 1);
      assert KnownPath(g, edits[n - 1].path);
      var t :| t in Sites(g) && t.path == edits[n - 1].path;
      OneMoreEdit(g, WriteAll(g, edits, n - 1).value, edits, n, t);
    }
  }

  /** One write to one knob comes back. */
  ghost predicate RoundTrips(g: GraphJson, s: Site, v: int) {
    var r := Write(g, IntEdit(s.path, v));
    r.Done? && Sites(r.value) == Sites(g) && Readable(r.value, s) && ReadLoc(r.value, s.loc) == Some(v)
  }

  // --------------------------------------------- when every knob is addressable

  predicate HasKnob(n: NodeJson) {
    n.factor.Lit? || exists a | 0 <= a < |n.args| :: n.args[a].Some? && n.args[a].value.groupBy.Some?
  }

  /** Some node's factor is the variable x. */
  predicate IsFactor(g: GraphJson, x: string) {
    exists k | 0 <= k < |All(g)| :: All(g)[k].factor == Var(x)
  }

  predicate FirstNode(g: GraphJson, k: nat)
    requires k < |All(g)|
  {
    All(g)[k].name.Some? && forall j | 0 <= j < k :: All(g)[j].name != All(g)[k].name
  }

  predicate FirstInit(g: GraphJson, i: nat)
    requires i < |g.inits|
  {
    forall j | 0 <= j < i :: g.inits[j].name != g.inits[i].name
  }

  /** Every node with a knob is the first node of its name, and every literal integer that
      is some node's factor is the first initialization of its name. */
  predicate NamesLeadBack(g: GraphJson) {
    && (forall k | 0 <= k < |All(g)| && HasKnob(All(g)[k]) :: FirstNode(g, k))
    && (forall i | 0 <= i < |g.inits| && InitInt(g.inits[i]).Some? && IsFactor(g, g.inits[i].name) :: FirstInit(g, i))
  }

  lemma {:induction false} InitSitesAre(names: seq<string>, ints: seq<Option<string>>)
    requires forall x <- names :: Last(ints, x) >= 0
    ensures forall s :: s in InitSites(names, ints) <==>
              exists x <- names :: s == Site(Grid.InitPath(x), InitLoc(Last(ints, x)))
  {
    hide Last;
    if names != [] {
      var n := |names| - 1;
      InitSitesAre(names[..n], ints);
      assert forall x :: x in names <==> x in names[..n] || x == names[n];
    }
  }

  lemma {:induction false} UsedAre(shapes: seq<NodeShape>, ints: seq<Option<string>>, n: nat)
    requires n <= |shapes|
    ensures forall x: string :: x in UsedInits(shapes, ints, n) <==>
              Last(ints, x) >= 0 && exists k | 0 <= k < n :: shapes[k].variable == Some(x)
  {
    hide Last;
    if n > 0 {
      UsedAre(shapes, ints, n - 1);
    }
  }

  lemma {:induction false} ArgSitesAre(shape: NodeShape, k: nat, n: nat)
    requires n <= |shape.grouped|
    ensures forall s :: s in ArgSites(shape, k, n) <==>
              exists a | 0 <= a < n :: shape.grouped[a] && s == Site(Grid.GroupPath(shape.name, a), GroupLoc(k, a))
  {
    if n > 0 {
      ArgSitesAre(shape, k, n - 1);
    }
  }

  predicate SiteOfNode(shape: NodeShape, k: nat, s: Site) {
    || (shape.literal && s == Site(Grid.FactorPath(shape.name), FactorLoc(k)))
    || (exists a | 0 <= a < |shape.grouped| ::
         shape.grouped[a] && s == Site(Grid.GroupPath(shape.name, a), GroupLoc(k, a)))
  }

  lemma {:induction false} NodeSitesAre(shapes: seq<NodeShape>, n: nat, s: Site)
    requires n <= |shapes|
    ensures s in NodeSites(shapes, n) <==> exists k | 0 <= k < n :: SiteOfNode(shapes[k], k, s)
  {
    hide SiteOfNode, ArgSites;
    if n > 0 {
      NodeSitesAre(shapes, n - 1, s);
      OwnSitesAre(shapes[n - 1], n - 1, s);
    }
  }

  lemma {:induction false} OwnSitesAre(shape: NodeShape, k: nat, s: Site)
    ensures var factor := if shape.literal then [Site(Grid.FactorPath(shape.name), FactorLoc(k))] else [];
            s in factor + ArgSites(shape, k, |shape.grouped|) <==> SiteOfNode(shape, k, s)
  {
    ArgSitesAre(shape, k, |shape.grouped|);
    hide ArgSites;
  }

  lemma {:induction false} NodeLeadsBack(g: GraphJson, k: nat)
    requires k < |All(g)|
    ensures First(NodeNames(g), Some(ShapeOf(All(g)[k]).name)) == k <==> FirstNode(g, k)
  {
    hide First;
    var names := NodeNames(g);
    assert forall j | 0 <= j < |names| :: names[j] == All(g)[j].name;
  }

  lemma {:induction false} NodeSiteLeadsBack(g: GraphJson, k: nat, s: Site)
    requires k < |All(g)| && SiteOfNode(ShapeOf(All(g)[k]), k, s)
    ensures Target(g, s.path) == Done(s.loc) <==> FirstNode(g, k)
  {
    NodeLeadsBack(g, k);
    hide First, FirstNode;
  }

  lemma {:induction false} InitLeadsBack(g: GraphJson, i: nat)
    requires i < |g.inits| && InitInt(g.inits[i]).Some?
    ensures Target(g, Grid.InitPath(g.inits[i].name)) == Done(InitLoc(i)) <==> FirstInit(g, i)
  {
    var names := InitNames(g);
    assert forall j | 0 <= j < |names| :: names[j] == Some(g.inits[j].name);
    hide First;
  }

  lemma {:induction false} KnobbedNodes(g: GraphJson, k: nat)
    requires k < |All(g)|
    ensures |Shapes(g)| == |All(g)| && Shapes(g)[k] == ShapeOf(All(g)[k])
    ensures HasKnob(All(g)[k]) <==> exists s :: SiteOfNode(Shapes(g)[k], k, s)
  {
    var n, shape := All(g)[k], Shapes(g)[k];
    if n.factor.Lit? {
      assert SiteOfNode(shape, k, Site(Grid.FactorPath(shape.name), FactorLoc(k)));
    }
    if a :| 0 <= a < |n.args| && n.args[a].Some? && n.args[a].value.groupBy.Some? {
      assert shape.grouped[a];
      assert SiteOfNode(shape, k, Site(Grid.GroupPath(shape.name, a), GroupLoc(k, a)));
    }
  }

  /** The sites of the nodes lead back exactly when every knobbed node is the first. */
  lemma {:induction false} NodesLeadBack(g: GraphJson)
    ensures (forall s <- NodeSites(Shapes(g), |All(g)|) :: Target(g, s.path) == Done(s.loc)) <==>
            forall k | 0 <= k < |All(g)| && HasKnob(All(g)[k]) :: FirstNode(g, k)
  {
    var sites := NodeSites(Shapes(g), |All(g)|);
    assert |Shapes(g)| == |All(g)|;
    hide Shapes, ShapeOf, NodeSites, SiteOfNode, HasKnob, FirstNode, Target;
    forall k | 0 <= k < |All(g)| && HasKnob(All(g)[k])
      ensures (forall s <- sites :: Target(g, s.path) == Done(s.loc)) ==> FirstNode(g, k)
    {
      KnobbedNodes(g, k);
      var s :| SiteOfNode(Shapes(g)[k], k, s);
      NodeSitesAre(Shapes(g), |All(g)|, s);
      NodeSiteLeadsBack(g, k, s);
    }
    forall s | s in sites
      ensures (forall k | 0 <= k < |All(g)| && HasKnob(All(g)[k]) :: FirstNode(g, k)) ==>
              Target(g, s.path) == Done(s.loc)
    {
      NodeSitesAre(Shapes(g), |All(g)|, s);
      var k :| 0 <= k < |All(g)| && SiteOfNode(Shapes(g)[k], k, s);
      KnobbedNodes(g, k);
      NodeSiteLeadsBack(g, k, s);
    }
  }

  lemma {:induction false} FactorNames(g: GraphJson, x: string)
    ensures IsFactor(g, x) <==> exists k | 0 <= k < |Shapes(g)| :: Shapes(g)[k].variable == Some(x)
  {
    assert |Shapes(g)| == |All(g)|;
    forall k | 0 <= k < |All(g)| ensures All(g)[k].factor == Var(x) <==> Shapes(g)[k].variable == Some(x) {
      VariableOf(g, k);
    }
    hide Shapes;
  }

  /** The literal integers that are factors: those at the last place of a used name. */
  lemma {:induction false} LastLiteral(g: GraphJson, i: nat)
    requires i < |g.inits| && InitInt(g.inits[i]).Some?
    ensures var last := Last(IntNames(g), g.inits[i].name);
            && i <= last < |g.inits| && InitInt(g.inits[last]).Some? && g.inits[last].name == g.inits[i].name
            && (FirstInit(g, last) ==> i == last)
  {
    var last := Last(IntNames(g), g.inits[i].name);
    IntNameAt(g, i);
    assert last >= 0;
    IntNameAt(g, last);
    hide Last, IntNames, InitInt;
  }

  lemma {:induction false} LiteralAt(g: GraphJson, x: string)
    requires Last(IntNames(g), x) >= 0
    ensures var i := Last(IntNames(g), x); i < |g.inits| && InitInt(g.inits[i]).Some? && g.inits[i].name == x
  {
    var i := Last(IntNames(g), x);
    IntNameAt(g, i);
    hide InitInt;
  }

  predicate IsShared(g: GraphJson, i: nat)
    requires i < |g.inits|
  {
    InitInt(g.inits[i]).Some? && IsFactor(g, g.inits[i].name)
  }

  function SiteOfInit(g: GraphJson, i: nat): Site
    requires i < |g.inits|
  {
    Site(Grid.InitPath(g.inits[i].name), InitLoc(i))
  }

  /** The names extraction lists: those of the shared literals. */
  lemma {:induction false} ListedName(g: GraphJson, names: seq<string>, x: string)
    requires names == SortNames(UsedInits(Shapes(g), IntNames(g), |Shapes(g)|))
    ensures x in names <==> Last(IntNames(g), x) >= 0 && IsFactor(g, x)
  {
    UsedAre(Shapes(g), IntNames(g), |Shapes(g)|);
    FactorNames(g, x);
    hide Shapes, IntNames, UsedInits, Last, IsFactor;
  }

  /** One site per shared name: the last literal of that name. */
  lemma {:induction false} InitSiteAt(g: GraphJson, names: seq<string>, s: Site)
    requires names == SortNames(UsedInits(Shapes(g), IntNames(g), |Shapes(g)|))
    ensures forall x <- names :: Last(IntNames(g), x) >= 0
    ensures s in InitSites(names, IntNames(g)) <==>
            exists i | 0 <= i < |g.inits| ::
              IsShared(g, i) && i == Last(IntNames(g), g.inits[i].name) && s == SiteOfInit(g, i)
  {
    forall x: string ensures x in names <==> Last(IntNames(g), x) >= 0 && IsFactor(g, x) { ListedName(g, names, x); }
    InitSitesAre(names, IntNames(g));
    hide Shapes, IntNames, UsedInits, SortNames, InitSites, Last, IsFactor, InitInt;
    if x :| x in names && s == Site(Grid.InitPath(x), InitLoc(Last(IntNames(g), x))) {
      LiteralAt(g, x);
      var i := Last(IntNames(g), x);
      assert IsShared(g, i) && s == SiteOfInit(g, i);
    }
    if i :| 0 <= i < |g.inits| && IsShared(g, i) && i == Last(IntNames(g), g.inits[i].name) && s == SiteOfInit(g, i) {
      assert g.inits[i].name in names;
    }
  }

  lemma {:induction false} InitsLeadBack(g: GraphJson, names: seq<string>)
    requires names == SortNames(UsedInits(Shapes(g), IntNames(g), |Shapes(g)|))
    ensures forall x <- names :: Last(IntNames(g), x) >= 0
    ensures (forall s <- InitSites(names, IntNames(g)) :: Target(g, s.path) == Done(s.loc)) <==>
            forall i | 0 <= i < |g.inits| && InitInt(g.inits[i]).Some? && IsFactor(g, g.inits[i].name) ::
              FirstInit(g, i)
  {
    forall x <- names ensures Last(IntNames(g), x) >= 0 { ListedName(g, names, x); }
    var sites := InitSites(names, IntNames(g));
    hide Shapes, IntNames, UsedInits, SortNames, InitSites, Last, InitInt, IsFactor, FirstInit, Target;
    forall i | 0 <= i < |g.inits| && InitInt(g.inits[i]).Some? && IsFactor(g, g.inits[i].name)
      ensures (forall s <- sites :: Target(g, s.path) == Done(s.loc)) ==> FirstInit(g, i)
    {
      LastLiteral(g, i);
      var last := Last(IntNames(g), g.inits[i].name);
      assert IsShared(g, last);
      InitSiteAt(g, names, SiteOfInit(g, last));
      InitLeadsBack(g, last);
    }
    forall s | s in sites
      ensures (forall i | 0 <= i < |g.inits| && InitInt(g.inits[i]).Some? && IsFactor(g, g.inits[i].name) ::
              FirstInit(g, i)) ==>
                Target(g, s.path) == Done(s.loc)
    {
      InitSiteAt(g, names, s);
      var i :| 0 <= i < |g.inits| && IsShared(g, i) && i == Last(IntNames(g), g.inits[i].name) && s == SiteOfInit(g, i);
      InitLeadsBack(g, i);
    }
  }

  /** Every knob can be addressed if and only if every knob sits on the first node or
      initialization of its name. */
  lemma {:induction false} AddressableMeans(g: GraphJson)
    ensures Addressable(g) <==> NamesLeadBack(g)
  {
    var names := SortNames(UsedInits(Shapes(g), IntNames(g), |Shapes(g)|));
    assert |Shapes(g)| == |All(g)|;
    InitsLeadBack(g, names);
    NodesLeadBack(g);
    var a, b := InitSites(names, IntNames(g)), NodeSites(Shapes(g), |All(g)|);
    assert Sites(g) == a + b;
    assert forall s :: s in Sites(g) <==> s in a || s in b;
    hide Sites, Shapes, IntNames, InitSites, NodeSites, UsedInits, SortNames, HasKnob, FirstNode, FirstInit, InitInt,
         IsFactor,
         Target, Last;
  }

  /** Every write to every knob comes back if and only if every knob sits on the first
      node or initialization of its name. */
  lemma {:induction false} AddressableExactly(g: GraphJson)
    ensures NamesLeadBack(g) <==> forall s, v :: s in Sites(g) ==> RoundTrips(g, s, v)
  {
    SitesReadable(g);
    AddressableMeans(g);
    hide NamesLeadBack;
    if Addressable(g) {
      forall s, v | s in Sites(g) ensures RoundTrips(g, s, v) {
        ReadBack(g, s.loc, v);
        SitesStay(g, s.loc, v);
        hide Sites;
      }
    }
    if forall s, v :: s in Sites(g) ==> RoundTrips(g, s, v) {
      forall s | s in Sites(g) ensures Target(g, s.path) == Done(s.loc) {
        StrayWriteIsNoticed(g, s);
      }
    }
  }

  lemma {:induction false} StrayWriteIsNoticed(g: GraphJson, s: Site)
    requires Readable(g, s) && forall v :: RoundTrips(g, s, v)
    ensures Target(g, s.path) == Done(s.loc)
  {
    hide Sites, InitInt, Show;
    var v := ReadLoc(g, s.loc).value + 1;
    assert RoundTrips(g, s, v);
    var l := Target(g, s.path).value;
    TargetExists(g, s.path);
    if l != s.loc {
      ReadElsewhere(g, l, v, s.loc);
    }
  }

  // ------------------------------------------------------------- unique names

  predicate Distinct(names: seq<Option<string>>) {
    forall i, j | 0 <= i < j < |names| :: names[i] != names[j]
  }

  /** Named nodes and unique names are enough. */
  lemma {:induction false} UniqueNamesLeadBack(g: GraphJson)
    requires Distinct(InitNames(g)) && Distinct(NodeNames(g)) && None !in NodeNames(g)
    ensures NamesLeadBack(g)
  {
    hide HasKnob, InitInt, IsFactor;
    forall k | 0 <= k < |All(g)| ensures FirstNode(g, k) {
      assert NodeNames(g)[k] == All(g)[k].name && NodeNames(g)[k] in NodeNames(g);
      assert forall j | 0 <= j < k :: NodeNames(g)[j] == All(g)[j].name;
    }
    forall i | 0 <= i < |g.inits| ensures FirstInit(g, i) {
      assert forall j | 0 <= j <= i :: InitNames(g)[j] == Some(g.inits[j].name);
    }
  }

  /** Two nodes of the same name: the second one's factor cannot be edited. */
  lemma {:induction false} SecondOfANameIsLost(n: int, m: int, name: string)
    ensures var g := GraphJson([], [NodeJson(Some(name), Lit(n), []), NodeJson(Some(name), Lit(m), [])], []);
            !NamesLeadBack(g)
  {
    var g := GraphJson([], [NodeJson(Some(name), Lit(n), []), NodeJson(Some(name), Lit(m), [])], []);
    assert All(g)[0].name == Some(name) && HasKnob(All(g)[1]);
    assert !FirstNode(g, 1);
  }

  // -------------------------------------------------------- through the names

  lemma {:induction false} SameEnding(a: string, b: string, c: string)
    requires a + c == b + c
    ensures a == b
  {
    assert |a| == |b| && (a + c)[..|a|] == a && (b + c)[..|b|] == b;
  }

  lemma {:induction false} SameBeginning(a: string, b: string, c: string)
    requires c + a == c + b
    ensures a == b
  {
    assert (c + a)[|c|..] == a && (c + b)[|c|..] == b;
  }

  /** A text that ends in a letter, followed by digits, can be cut in one way only. */
  lemma {:induction false} DigitsCutOnce(a: string, n: nat, b: string, m: nat)
    requires a != [] && b != [] && !IsDigit(a[|a| - 1]) && !IsDigit(b[|b| - 1])
    requires a + ShowNat(n) == b + ShowNat(m)
    ensures a == b && n == m
  {
    var s := a + ShowNat(n);
    DigitsFollow(a, n);
    DigitsFollow(b, m);
    assert |a| == |b| by { hide ShowNat, IsDigit; assert !IsDigit(s[|a| - 1]) && !IsDigit(s[|b| - 1]); }
    assert s[..|a|] == a && s[..|b|] == b && s[|a|..] == ShowNat(n) && s[|b|..] == ShowNat(m);
    DigitsRoundTrip(n);
    DigitsRoundTrip(m);
  }

  lemma {:induction false} DigitsFollow(a: string, n: nat)
    ensures forall i | |a| <= i < |a + ShowNat(n)| :: IsDigit((a + ShowNat(n))[i])
  {
    forall i | |a| <= i < |a + ShowNat(n)| ensures IsDigit((a + ShowNat(n))[i]) {
      assert (a + ShowNat(n))[i] in ShowNat(n);
    }
  }

  /** Knob names identify what they edit: no two paths share a name, whatever the
      nodes and initializations are called. */
  lemma {:induction false} KnobNameIsInjective(p: Grid.Path, q: Grid.Path)
    requires KnobName(p) == KnobName(q)
    ensures p == q
  {
    KindShows(p);
    KindShows(q);
    hide ShowNat;
    match (p, q)
    case (InitPath(a), InitPath(b)) =>
      SameBeginning(a, b, "graph:init.");
    case (FactorPath(a), FactorPath(b)) =>
      SameEnding("graph:node." + a, "graph:node." + b, ".factor");
      SameBeginning(a, b, "graph:node.");
    case (GroupPath(a, n), GroupPath(b, m)) =>
      GroupNamesDiffer(a, n, b, m);
    case _ =>
  }

  lemma {:induction false} GroupNamesDiffer(a: string, n: nat, b: string, m: nat)
    requires KnobName(Grid.GroupPath(a, n)) == KnobName(Grid.GroupPath(b, m))
    ensures a == b && n == m
  {
    var x, y := "graph:node." + a + ".arg", "graph:node." + b + ".arg";
    hide ShowNat;
    SameEnding(x + ShowNat(n), y + ShowNat(m), ".group_by");
    DigitsCutOnce(x, n, y, m);
    SameEnding("graph:node." + a, "graph:node." + b, ".arg");
    SameBeginning(a, b, "graph:node.");
  }

  lemma {:induction false} KindShows(p: Grid.Path)
    ensures var s := KnobName(p);
            && |s| >= 8
            && (p.InitPath? <==> s[6] == 'i')
            && (p.FactorPath? ==> s[|s| - 1] == 'r' && s[6] == 'n')
            && (p.GroupPath? ==> s[|s| - 1] == 'y' && s[6] == 'n')
  {
    hide ShowNat;
  }

  // ------------------------------------------------------- through the space

  /** The graph's knobs as entries of the search space. */
  function AsSpace(knobs: seq<GraphKnob>): seq<Grid.Knob> {
    seq(|knobs|, i requires 0 <= i < |knobs| =>
      Grid.Knob(knobs[i].name, Grid.OfGraph(knobs[i].path), Grid.Choice(Grid.Ints(knobs[i].domain))))
  }

  function AsIntEdits(edits: seq<Grid.Edit>): seq<IntEdit>
    requires forall i | 0 <= i < |edits| :: edits[i].value.IntValue?
  {
    seq(|edits|, i requires 0 <= i < |edits| => IntEdit(edits[i].path, edits[i].value.n))
  }

  predicate IntsOnly(values: seq<(string, Grid.Value)>) {
    forall i | 0 <= i < |values| :: values[i].1.IntValue?
  }

  lemma {:induction false} SpaceEntry(g: GraphJson, k: nat)
    requires k < |AsSpace(GraphKnobs(g))|
    ensures |AsSpace(GraphKnobs(g))| == |Sites(g)|
    ensures AsSpace(GraphKnobs(g))[k].kind == Grid.OfGraph(Sites(g)[k].path)
    ensures AsSpace(GraphKnobs(g))[k].name == KnobName(Sites(g)[k].path)
  {
    hide Sites, KnobName;
    SitesReadable(g);
    assert Sites(g)[k] in Sites(g);
  }

  predicate IsKnobEdit(g: GraphJson, x: (string, Grid.Value), e: Grid.Edit) {
    e.value == x.1 && KnobName(e.path) == x.0 && KnownPath(g, e.path)
  }

  lemma {:induction false} GraphValueIsAnEdit(g: GraphJson, x: (string, Grid.Value), e: Grid.Edit)
    ensures !Grid.IsCliValue(AsSpace(GraphKnobs(g)), x)
    ensures Grid.IsEditOf(AsSpace(GraphKnobs(g)), x, e) ==> IsKnobEdit(g, x, e)
  {
    var k := Grid.ByName(AsSpace(GraphKnobs(g)), x.0);
    if k >= 0 {
      SpaceEntry(g, k);
      assert Sites(g)[k] in Sites(g);
    }
    hide Sites, KnobName, GraphKnobs, AsSpace;
  }

  /** Split over graph knobs only: one edit per value, its path the one whose name the
      value carries. */
  lemma {:induction false} SplitOfGraphKnobs(g: GraphJson, values: seq<(string, Grid.Value)>, n: nat)
    requires n <= |values|
    ensures var r := Grid.PartsOf(AsSpace(GraphKnobs(g)), values, n);
            r.Ok? ==> |r.value.edits| == n && forall j | 0 <= j < n :: IsKnobEdit(g, values[j], r.value.edits[j])
  {
    hide Sites, KnobName, GraphKnobs, AsSpace, Grid.ByName, Grid.IsCliValue, Grid.IsEditOf, IsKnobEdit;
    if n > 0 && Grid.PartsOf(AsSpace(GraphKnobs(g)), values, n).Ok? {
      Grid.RouteStep(AsSpace(GraphKnobs(g)), values, n);
      SplitOfGraphKnobs(g, values, n - 1);
      var p := Grid.PartsOf(AsSpace(GraphKnobs(g)), values, n).value;
      if |p.edits| > 0 {
        GraphValueIsAnEdit(g, values[n - 1], p.edits[|p.edits| - 1]);
      } else {
        GraphValueIsAnEdit(g, values[n - 1], Grid.Edit(Grid.InitPath(""), values[n - 1].1));
      }
    }
  }

  /** The last value given under a name, or the old one. */
  function Given(values: seq<(string, Grid.Value)>, n: nat, name: string, old_: int): int
    requires n <= |values| && IntsOnly(values)
  {
    if n == 0 then old_
    else if values[n - 1].0 == name then values[n - 1].1.n
    else Given(values, n - 1, name, old_)
  }

  lemma {:induction false} WrittenIsGiven(edits: seq<IntEdit>, values: seq<(string, Grid.Value)>, n: nat,
          p: Grid.Path, old_: int)
    requires n <= |edits| == |values| && IntsOnly(values)
    requires forall j | 0 <= j < |edits| :: edits[j].value == values[j].1.n && KnobName(edits[j].path) == values[j].0
    ensures Written(edits, n, p, old_) == Given(values, n, KnobName(p), old_)
  {
    hide KnobName;
    if n > 0 {
      WrittenIsGiven(edits, values, n - 1, p, old_);
      if KnobName(edits[n - 1].path) == KnobName(p) {
        KnobNameIsInjective(edits[n - 1].path, p);
      }
    }
  }

  /** The knob lens, from a configuration by name to the extracted knobs: if splitting
      accepts it, applying the edits and extracting again yields the same names and
      paths, each base being the value given under that name. */
  lemma {:induction false} KnobLensLaw(g: GraphJson, values: seq<(string, Grid.Value)>)
    requires NamesLeadBack(g) && IntsOnly(values)
    ensures Grid.PartsOf(AsSpace(GraphKnobs(g)), values, |values|).Ok? ==>
            var edits := Grid.PartsOf(AsSpace(GraphKnobs(g)), values, |values|).value.edits;
            && (forall i | 0 <= i < |edits| :: edits[i].value.IntValue?)
            && WriteAll(g, AsIntEdits(edits), |edits|).Done?
            && var before, after := GraphKnobs(g), GraphKnobs(WriteAll(g, AsIntEdits(edits), |edits|).value);
            && |after| == |before|
            && forall i | 0 <= i < |before| ::
                 && after[i].name == before[i].name && after[i].path == before[i].path
                 && after[i].base == Given(values, |values|, before[i].name, before[i].base)
  {
    hide *;
    AddressableMeans(g);
    SplitEdits(g, values);
    if Grid.PartsOf(AsSpace(GraphKnobs(g)), values, |values|).Ok? {
      var edits := AsIntEdits(Grid.PartsOf(AsSpace(GraphKnobs(g)), values, |values|).value.edits);
      PutThenGet(g, edits, |edits|);
      var final := WriteAll(g, edits, |edits|).value;
      KnobsAfter(g, final, edits);
      forall i | 0 <= i < |GraphKnobs(g)|
        ensures GraphKnobs(final)[i].base == Given(values, |values|, GraphKnobs(g)[i].name, GraphKnobs(g)[i].base)
      {
        WrittenIsGiven(edits, values, |edits|, GraphKnobs(g)[i].path, GraphKnobs(g)[i].base);
      }
    }
  }

  lemma {:induction false} SplitEdits(g: GraphJson, values: seq<(string, Grid.Value)>)
    requires IntsOnly(values)
    ensures Grid.PartsOf(AsSpace(GraphKnobs(g)), values, |values|).Ok? ==>
            var grid := Grid.PartsOf(AsSpace(GraphKnobs(g)), values, |values|).value.edits;
            && (forall i | 0 <= i < |grid| :: grid[i].value.IntValue?)
            && var edits := AsIntEdits(grid);
            && |edits| == |grid| == |values| && KnownPaths(g, edits)
            && forall j | 0 <= j < |edits| ::
                 values[j].1.IntValue? && edits[j].value == values[j].1.n && KnobName(edits[j].path) == values[j].0
  {
    SplitOfGraphKnobs(g, values, |values|);
    hide *;
    if Grid.PartsOf(AsSpace(GraphKnobs(g)), values, |values|).Ok? {
      EditsOfKnobs(g, values, Grid.PartsOf(AsSpace(GraphKnobs(g)), values, |values|).value.edits);
    }
  }

  lemma {:induction false} EditsOfKnobs(g: GraphJson, values: seq<(string, Grid.Value)>, grid: seq<Grid.Edit>)
    requires IntsOnly(values) && |grid| == |values|
    requires forall j | 0 <= j < |grid| :: IsKnobEdit(g, values[j], grid[j])
    ensures forall i | 0 <= i < |grid| :: grid[i].value.IntValue?
    ensures var edits := AsIntEdits(grid);
            && |edits| == |grid| && KnownPaths(g, edits)
            && forall j | 0 <= j < |edits| ::
                 values[j].1.IntValue? && edits[j].value == values[j].1.n && KnobName(edits[j].path) == values[j].0
  {
    hide KnownPath, KnobName;
    forall j | 0 <= j < |grid|
      ensures values[j].1.IntValue? && grid[j].value == values[j].1
      ensures KnobName(grid[j].path) == values[j].0 && KnownPath(g, grid[j].path)
    {
      assert IsKnobEdit(g, values[j], grid[j]);
    }
  }

  /** What the lens law means for the extracted knobs. */
  lemma {:induction false} KnobsAfter(g: GraphJson, after: GraphJson, edits: seq<IntEdit>)
    requires Holds(g, after, edits, |edits|)
    ensures |GraphKnobs(after)| == |GraphKnobs(g)|
    ensures forall i | 0 <= i < |GraphKnobs(g)| ::
              && GraphKnobs(after)[i].name == GraphKnobs(g)[i].name == KnobName(GraphKnobs(g)[i].path)
              && GraphKnobs(after)[i].path == GraphKnobs(g)[i].path
              && GraphKnobs(after)[i].base == Written(edits, |edits|, GraphKnobs(g)[i].path, GraphKnobs(g)[i].base)
  {
    SitesReadable(g);
    SitesReadable(after);
    hide Sites, KnobName, Written, Addressable, GroupDomain;
    assert forall i | 0 <= i < |Sites(g)| :: Sites(g)[i] in Sites(g);
  }
}
