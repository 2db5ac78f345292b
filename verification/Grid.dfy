/** The search space of knobs: domains and their points, the full grid, and how a
    configuration is split into command-line arguments and graph edits. */
module Grid {
  import opened Common

  datatype Value = BoolValue(b: bool) | IntValue(n: int) | TextValue(s: string)

  datatype Domain =
    | BoolDomain
    | Choice(values: seq<Value>)
    | IntDomain(lo: int, hi: int, pow2: bool)
    | OtherDomain(kind: string)

  /** What a graph knob edits. */
  datatype Path = InitPath(init: string) | FactorPath(node: string) | GroupPath(node: string, arg: nat)

  datatype KnobKind = Cli | OfGraph(path: Path)

  datatype Knob = Knob(name: string, kind: KnobKind, domain: Domain)

  datatype KnobError = UnknownDomain(kind: string) | UnknownKnob(name: string)

  datatype Result<+T> = Ok(value: T) | Err(error: KnobError)

  // ------------------------------------------------------------------ domains

  /** v, 2v, 4v, .. up to hi. */
  function Doublings(v: int, hi: int): seq<int>
    requires v >= 1
    decreases hi - v
  {
    if v > hi then [] else [v] + Doublings(2 * v, hi)
  }

  function Max(a: int, b: int): int {
    if a >= b then a else b
  }

  function IntPoints(lo: int, hi: int, pow2: bool): seq<int> {
    if pow2 then (if lo == 0 then [0] else []) + Doublings(Max(lo, 1), hi)
    else if hi < lo then [] else seq(hi - lo + 1, i => lo + i)
  }

  function Ints(ns: seq<int>): seq<Value> {
    seq(|ns|, i requires 0 <= i < |ns| => IntValue(ns[i]))
  }

  function Points(d: Domain): Result<seq<Value>> {
    match d
    case BoolDomain => Ok([BoolValue(false), BoolValue(true)])
    case Choice(values) => Ok(values)
    case IntDomain(lo, hi, pow2) => Ok(Ints(IntPoints(lo, hi, pow2)))
    case OtherDomain(kind) => Err(UnknownDomain(kind))
  }

  method EnumerateDomain(d: Domain) returns (r: Result<seq<Value>>)
    ensures r == Points(d)
  {
    match d {
      case BoolDomain =>
        r := Ok([BoolValue(false), BoolValue(true)]);
      case Choice(values) =>
        r := Ok(values);
      case IntDomain(lo, hi, pow2) =>
        var values: seq<int> := [];
        if pow2 {
          var v := Max(lo, 1);
          while v <= hi
            invariant v >= 1
            invariant values + Doublings(v, hi) == Doublings(Max(lo, 1), hi)
            decreases hi - v
          {
            values := values + [v];
            v := v * 2;
          }
          assert values + [] == values;
          if lo == 0 {
            values := [0] + values;
          } else {
            assert [] + values == values;
          }
        } else {
          for i := lo to Max(lo, hi + 1)
            invariant values == seq(i - lo, k => lo + k)
          {
            values := values + [i];
          }
        }
        r := Ok(Ints(values));
      case OtherDomain(kind) =>
        r := Err(UnknownDomain(kind));
    }
  }

  function Pow2(k: nat): nat {
    if k == 0 then 1 else 2 * Pow2(k - 1)
  }

  predicate Ascending(ns: seq<int>) {
    forall i, j | 0 <= i < j < |ns| :: ns[i] < ns[j]
  }

  lemma {:induction false} DoubleLater(v: int, k: nat)
    requires v >= 1 && k > 0
    ensures v * Pow2(k) == (2 * v) * Pow2(k - 1)
    ensures (2 * v) * Pow2(k - 1) >= 2 * v
  {
    Pow2Positive(k - 1);
    var p := Pow2(k - 1);
    assert v * (2 * p) == (2 * v) * p;
    assert (2 * v) * p >= (2 * v) * 1;
  }

  /** The k-th doubling, and how far they go. */
  lemma {:induction false} DoublingAt(v: int, hi: int, k: nat)
    requires v >= 1
    ensures k < |Doublings(v, hi)| <==> v * Pow2(k) <= hi
    ensures k < |Doublings(v, hi)| ==> Doublings(v, hi)[k] == v * Pow2(k)
    decreases k
  {
    if k == 0 {
      assert v * Pow2(0) == v;
    } else {
      DoublingAt(2 * v, hi, k - 1);
      DoubleLater(v, k);
      hide Pow2;
      assert v <= hi ==> Doublings(v, hi) == [v] + Doublings(2 * v, hi);
    }
  }

  lemma {:induction false} Pow2Positive(k: nat)
    ensures Pow2(k) >= 1
  {
    if k > 0 {
      Pow2Positive(k - 1);
    }
  }

  lemma {:induction false} DoublingsAscend(v: int, hi: int)
    requires v >= 1
    ensures Ascending(Doublings(v, hi)) && forall x <- Doublings(v, hi) :: v <= x <= hi
    decreases hi - v
  {
    if v <= hi {
      DoublingsAscend(2 * v, hi);
      var rest := Doublings(2 * v, hi);
      assert forall i | 0 <= i < |rest| :: rest[i] in rest;
    }
  }

  lemma {:induction false} DoublingsExactly(v: int, hi: int, n: int)
    requires v >= 1
    ensures n in Doublings(v, hi) <==> exists k: nat :: n == v * Pow2(k) && n <= hi
  {
    var ds := Doublings(v, hi);
    if n in ds {
      var k :| 0 <= k < |ds| && ds[k] == n;
      DoublingAt(v, hi, k);
      assert n == v * Pow2(k) && n <= hi;
    }
    if k: nat :| n == v * Pow2(k) && n <= hi {
      DoublingAt(v, hi, k);
      assert ds[k] == n;
    }
  }

  lemma {:induction false} PowerPoints(lo: int, hi: int, n: int)
    ensures Max(lo, 1) >= 1
    ensures n in IntPoints(lo, hi, true) <==> (lo == 0 && n == 0) || n in Doublings(Max(lo, 1), hi)
    ensures Ascending(IntPoints(lo, hi, true))
  {
    var v := Max(lo, 1);
    var front := if lo == 0 then [0] else [];
    assert IntPoints(lo, hi, true) == front + Doublings(v, hi);
    DoublingsAscend(v, hi);
    hide *;
    if lo == 0 {
      ZeroInFront(Doublings(v, hi), v);
    } else {
      assert front + Doublings(v, hi) == Doublings(v, hi);
    }
  }

  lemma {:induction false} ZeroInFront(ns: seq<int>, v: int)
    requires v >= 1 && Ascending(ns) && forall x <- ns :: v <= x
    ensures Ascending([0] + ns)
  {
    var all := [0] + ns;
    forall i, j | 0 <= i < j < |all| ensures all[i] < all[j] {
      assert all[j] == ns[j - 1] && ns[j - 1] in ns;
      assert i > 0 ==> all[i] == ns[i - 1];
    }
  }

  /** A power-of-two domain holds exactly max(lo, 1) * 2^k up to hi, ascending, and 0
      in front when lo is 0. */
  lemma {:induction false} Pow2DomainExactly(lo: int, hi: int, n: int)
    ensures n in IntPoints(lo, hi, true) <==>
            (lo == 0 && n == 0) || exists k: nat :: n == Max(lo, 1) * Pow2(k) && n <= hi
    ensures Ascending(IntPoints(lo, hi, true))
  {
    PowerPoints(lo, hi, n);
    hide *;
    DoublingsExactly(Max(lo, 1), hi, n);
  }

  /** A domain repeats a point only if it is a choice that lists it twice. */
  lemma {:induction false} OnlyChoicesRepeat(d: Domain)
    requires Points(d).Ok?
    ensures NoDuplicates(Points(d).value) <==> (d.Choice? ==> NoDuplicates(d.values))
  {
    if d.IntDomain? && d.pow2 {
      Pow2DomainExactly(d.lo, d.hi, 0);
      var ns := IntPoints(d.lo, d.hi, true);
      assert forall i, j | 0 <= i < j < |ns| :: ns[i] < ns[j];
    }
  }

  // -------------------------------------------------------- generated choices

  /** base/4, base/2, base, 2 base, 4 base: those that are integers, at least 1. */
  function FactorLadder(base: int): seq<int> {
    (if base % 4 == 0 && base / 4 >= 1 then [base / 4] else []) +
    (if base % 2 == 0 && base / 2 >= 1 then [base / 2] else []) +
    (if base >= 1 then [base, 2 * base, 4 * base] else [])
  }

  lemma {:induction false} LadderExactly(base: int, n: int)
    ensures n in FactorLadder(base) <==>
            n >= 1 && (4 * n == base || 2 * n == base || n == base || n == 2 * base || n == 4 * base)
    ensures Ascending(FactorLadder(base))
  {
    var ladder := FactorLadder(base);
    if base < 1 {
      assert ladder == [];
    } else if base % 4 == 0 {
      var q := base / 4;
      assert base == 4 * q && base / 2 == 2 * q && base % 2 == 0;
      assert ladder == [q, 2 * q, 4 * q, 8 * q, 16 * q];
    } else if base % 2 == 0 {
      var h := base / 2;
      assert base == 2 * h;
      assert ladder == [h, 2 * h, 4 * h, 8 * h];
    } else {
      assert ladder == [base, 2 * base, 4 * base];
    }
    hide FactorLadder;
  }

  /** The positive divisors, by trial. */
  method Divisors(n: int) returns (ds: seq<int>)
    ensures ds == DivisorsUpTo(n, n)
  {
    ds := [];
    for d := 1 to Max(1, n + 1)
      invariant ds == DivisorsUpTo(n, d - 1)
    {
      if n % d == 0 {
        ds := ds + [d];
      }
    }
  }

  function DivisorsUpTo(n: int, limit: int): seq<int>
    decreases limit
  {
    if limit < 1 then []
    else if n % limit == 0 then DivisorsUpTo(n, limit - 1) + [limit]
    else DivisorsUpTo(n, limit - 1)
  }

  lemma {:induction false} DivisorsExactly(n: int, limit: int)
    ensures forall d :: d in DivisorsUpTo(n, limit) <==> 1 <= d <= limit && n % d == 0
    ensures Ascending(DivisorsUpTo(n, limit))
    decreases limit
  {
    if limit >= 1 {
      DivisorsExactly(n, limit - 1);
      var ds := DivisorsUpTo(n, limit - 1);
      assert forall i | 0 <= i < |ds| :: ds[i] in ds;
    }
  }

  // ---------------------------------------------------------------- the grid

  /** `itertools.product`: the last domain varies fastest. */
  function Combos(domains: seq<seq<Value>>): seq<seq<Value>>
    decreases |domains|, 1
  {
    if domains == [] then [[]] else Prefixed(domains[0], Combos(domains[1..]))
  }

  function Prefixed(first: seq<Value>, rest: seq<seq<Value>>): seq<seq<Value>> {
    if first == [] then [] else WithHead(first[0], rest) + Prefixed(first[1..], rest)
  }

  function WithHead(v: Value, rest: seq<seq<Value>>): seq<seq<Value>> {
    seq(|rest|, i requires 0 <= i < |rest| => [v] + rest[i])
  }

  function ProductSize(domains: seq<seq<Value>>): nat {
    if domains == [] then 1 else |domains[0]| * ProductSize(domains[1..])
  }

  /** `dict(zip(names, combo))`: a repeated name keeps its last value. */
  function CellOf(names: seq<string>, combo: seq<Value>): map<string, Value>
    requires |names| == |combo|
  {
    if names == [] then map[]
    else CellOf(names[..|names| - 1], combo[..|combo| - 1])[names[|names| - 1] := combo[|combo| - 1]]
  }

  predicate Fits(combo: seq<Value>, domains: seq<seq<Value>>) {
    |combo| == |domains| && forall i | 0 <= i < |combo| :: combo[i] in domains[i]
  }

  lemma {:induction false} PrefixedSize(first: seq<Value>, rest: seq<seq<Value>>)
    ensures |Prefixed(first, rest)| == |first| * |rest|
  {
    if first != [] {
      PrefixedSize(first[1..], rest);
      assert |first| * |rest| == |rest| + (|first| - 1) * |rest|;
    }
  }

  lemma {:induction false} ProductCounts(domains: seq<seq<Value>>)
    ensures |Combos(domains)| == ProductSize(domains)
  {
    if domains != [] {
      ProductCounts(domains[1..]);
      PrefixedSize(domains[0], Combos(domains[1..]));
    }
  }

  lemma {:induction false} PrefixedMembers(first: seq<Value>, rest: seq<seq<Value>>, c: seq<Value>)
    ensures c in Prefixed(first, rest) <==> c != [] && c[0] in first && c[1..] in rest
  {
    if first != [] {
      PrefixedMembers(first[1..], rest, c);
      var heads := WithHead(first[0], rest);
      if c in heads {
        var i :| 0 <= i < |heads| && heads[i] == c;
        assert c[1..] == rest[i];
      }
      if c != [] && c[0] == first[0] && c[1..] in rest {
        var i :| 0 <= i < |rest| && rest[i] == c[1..];
        assert heads[i] == [c[0]] + c[1..] == c;
      }
      assert c != [] ==> (c[0] in first <==> c[0] == first[0] || c[0] in first[1..]);
    } else {
      assert c != [] ==> c[0] !in first;
    }
  }

  /** Exactly the combinations with one point of each domain are listed. */
  lemma {:induction false} CombosMembers(domains: seq<seq<Value>>, c: seq<Value>)
    ensures c in Combos(domains) <==> Fits(c, domains)
    decreases |domains|
  {
    if domains == [] {
      assert Combos(domains) == [[]];
    } else {
      PrefixedMembers(domains[0], Combos(domains[1..]), c);
      if c != [] {
        CombosMembers(domains[1..], c[1..]);
        FitsStep(c, domains);
      }
    }
  }

  lemma {:induction false} FitsStep(c: seq<Value>, domains: seq<seq<Value>>)
    requires c != [] && domains != []
    ensures Fits(c, domains) <==> c[0] in domains[0] && Fits(c[1..], domains[1..])
  {
    if Fits(c[1..], domains[1..]) && c[0] in domains[0] {
      forall i | 0 <= i < |c| ensures c[i] in domains[i] {
        assert i > 0 ==> c[1..][i - 1] in domains[1..][i - 1];
      }
    }
    if Fits(c, domains) {
      forall i | 0 <= i < |c[1..]| ensures c[1..][i] in domains[1..][i] {
        assert c[i + 1] in domains[i + 1];
      }
    }
  }

  lemma {:induction false} PrefixedDistinct(first: seq<Value>, rest: seq<seq<Value>>)
    requires NoDuplicates(first) && NoDuplicates(rest)
    ensures NoDuplicates(Prefixed(first, rest))
  {
    if first != [] {
      PrefixedDistinct(first[1..], rest);
      var heads, others := WithHead(first[0], rest), Prefixed(first[1..], rest);
      forall i, j | 0 <= i < j < |heads| ensures heads[i] != heads[j] {
        assert heads[i][1..] == rest[i] && heads[j][1..] == rest[j];
      }
      forall i, j | 0 <= i < |heads| && 0 <= j < |others| ensures heads[i] != others[j] {
        PrefixedMembers(first[1..], rest, others[j]);
        assert others[j] in others;
        assert heads[i][0] == first[0] && first[0] !in first[1..];
      }
    }
  }

  lemma {:induction false} CombosDistinct(domains: seq<seq<Value>>)
    requires forall d <- domains :: NoDuplicates(d)
    ensures NoDuplicates(Combos(domains))
    decreases |domains|
  {
    if domains != [] {
      CombosDistinct(domains[1..]);
      PrefixedDistinct(domains[0], Combos(domains[1..]));
    }
  }

  lemma {:induction false} CellReads(names: seq<string>, combo: seq<Value>)
    requires |names| == |combo|
    ensures CellOf(names, combo).Keys == set n <- names
    ensures NoDuplicates(names) ==> forall i | 0 <= i < |names| :: CellOf(names, combo)[names[i]] == combo[i]
  {
    if names != [] {
      var n := |names| - 1;
      CellReads(names[..n], combo[..n]);
      assert names == names[..n] + [names[n]];
      assert CellOf(names, combo) == CellOf(names[..n], combo[..n])[names[n] := combo[n]];
      if NoDuplicates(names) {
        forall i | 0 <= i < |names| ensures CellOf(names, combo)[names[i]] == combo[i] {
          if i < n {
            assert names[..n][i] == names[i] && combo[..n][i] == combo[i];
          }
        }
      }
    }
  }

  /** The cell that gives each name its point. */
  predicate IsChoice(cell: map<string, Value>, names: seq<string>, domains: seq<seq<Value>>)
    requires |names| == |domains|
  {
    cell.Keys == (set n <- names) && forall i | 0 <= i < |names| :: cell[names[i]] in domains[i]
  }

  function Cells(names: seq<string>, domains: seq<seq<Value>>): (cells: seq<map<string, Value>>)
    requires |names| == |domains|
    ensures |cells| == |Combos(domains)|
  {
    var combos := Combos(domains);
    seq(|combos|, i requires 0 <= i < |combos| =>
      assert combos[i] in combos;
      CombosMembers(domains, combos[i]);
      CellOf(names, combos[i]))
  }

  lemma {:induction false} DifferAt(a: seq<Value>, b: seq<Value>) returns (k: nat)
    requires |a| == |b| && a != b
    ensures k < |a| && a[k] != b[k]
  {
    k :| 0 <= k < |a| && a[k] != b[k];
  }

  /** With distinct names and domains without repetition, the grid is a bijection: as
      many cells as the product says, no two equal, and exactly the choices of one
      point per knob. */
  lemma {:induction false} GridIsABijection(names: seq<string>, domains: seq<seq<Value>>)
    requires |names| == |domains| && NoDuplicates(names) && forall d <- domains :: NoDuplicates(d)
    ensures |Cells(names, domains)| == ProductSize(domains)
    ensures NoDuplicates(Cells(names, domains))
    ensures forall cell :: cell in Cells(names, domains) <==> IsChoice(cell, names, domains)
  {
    var combos, cells := Combos(domains), Cells(names, domains);
    ProductCounts(domains);
    CombosDistinct(domains);
    forall i | 0 <= i < |combos|
      ensures |combos[i]| == |names| && cells[i] == CellOf(names, combos[i]) && Fits(combos[i], domains)
      ensures cells[i].Keys == set n <- names
      ensures forall k | 0 <= k < |names| :: cells[i][names[k]] == combos[i][k]
    {
      assert combos[i] in combos;
      CombosMembers(domains, combos[i]);
      CellReads(names, combos[i]);
    }
    hide Cells, Combos, CellOf;
    forall i, j | 0 <= i < j < |cells| ensures cells[i] != cells[j] {
      var k := DifferAt(combos[i], combos[j]);
      assert cells[i][names[k]] != cells[j][names[k]];
    }
    forall cell ensures cell in cells <==> IsChoice(cell, names, domains) {
      if cell in cells {
        var i :| 0 <= i < |cells| && cells[i] == cell;
        assert Fits(combos[i], domains);
      }
      if IsChoice(cell, names, domains) {
        ChoiceIsListed(names, domains, cell);
      }
    }
  }

  lemma {:induction false} ChoiceIsListed(names: seq<string>, domains: seq<seq<Value>>, cell: map<string, Value>)
    requires |names| == |domains| && NoDuplicates(names) && IsChoice(cell, names, domains)
    ensures cell in Cells(names, domains)
  {
    assert forall k | 0 <= k < |names| :: names[k] in cell.Keys;
    var combo := seq(|names|, k requires 0 <= k < |names| => cell[names[k]]);
    CombosMembers(domains, combo);
    var combos := Combos(domains);
    var i :| 0 <= i < |combos| && combos[i] == combo;
    CellReads(names, combo);
    assert CellOf(names, combo) == cell;
    assert Cells(names, domains)[i] == cell;
  }

  /** With two knobs of the same name the grid repeats itself. */
  lemma {:induction false} RepeatedNamesCollapse()
    ensures var names := ["k", "k"];
            var domains := [[IntValue(1), IntValue(2)], [IntValue(3)]];
            |Cells(names, domains)| == 2 && Cells(names, domains)[0] == Cells(names, domains)[1]
  {
    var names := ["k", "k"];
    var domains := [[IntValue(1), IntValue(2)], [IntValue(3)]];
    ProductCounts(domains);
    assert domains[1..] == [[IntValue(3)]] && domains[1..][1..] == [];
    assert ProductSize(domains[1..]) == 1 * ProductSize([]);
    assert ProductSize(domains) == 2;
    forall i | 0 <= i < 2 ensures Cells(names, domains)[i] == map["k" := IntValue(3)] {
      var c := Combos(domains)[i];
      assert c in Combos(domains);
      CombosMembers(domains, c);
      assert c[1] in domains[1] && c[1] == IntValue(3);
      assert names[..1] == ["k"] && c[..1] == [c[0]] && names[..1][..0] == [] && c[..1][..0] == [];
      assert CellOf(names, c) == CellOf(names[..1], c[..1])["k" := c[1]];
      assert CellOf(names[..1], c[..1]) == map["k" := c[0]];
    }
  }

  function AllPoints(knobs: seq<Knob>, n: nat): Result<seq<seq<Value>>>
    requires n <= |knobs|
  {
    if n == 0 then Ok([])
    else
      match AllPoints(knobs, n - 1)
      case Err(e) => Err(e)
      case Ok(before) =>
        match Points(knobs[n - 1].domain)
        case Err(e) => Err(e)
        case Ok(ps) => Ok(before + [ps])
  }

  lemma {:induction false} FirstBadDomainStays(knobs: seq<Knob>, n: nat)
    requires n <= |knobs| && AllPoints(knobs, n).Err?
    ensures AllPoints(knobs, |knobs|) == AllPoints(knobs, n)
    decreases |knobs| - n
  {
    if n < |knobs| {
      FirstBadDomainStays(knobs, n + 1);
    }
  }

  lemma {:induction false} AllPointsLength(knobs: seq<Knob>, n: nat)
    requires n <= |knobs| && AllPoints(knobs, n).Ok?
    ensures |AllPoints(knobs, n).value| == n
  {
    if n > 0 {
      AllPointsLength(knobs, n - 1);
    }
  }

  function Names(knobs: seq<Knob>): seq<string> {
    seq(|knobs|, i requires 0 <= i < |knobs| => knobs[i].name)
  }

  method GridCells(knobs: seq<Knob>) returns (r: Result<seq<map<string, Value>>>)
    ensures match AllPoints(knobs, |knobs|)
            case Err(e) => r == Err(e)
            case Ok(domains) => |domains| == |knobs| && r == Ok(Cells(Names(knobs), domains))
  {
    var domains: seq<seq<Value>> := [];
    for i := 0 to |knobs|
      invariant AllPoints(knobs, i) == Ok(domains) && |domains| == i
    {
      var points := EnumerateDomain(knobs[i].domain);
      if points.Err? {
        FirstBadDomainStays(knobs, i + 1);
        return Err(points.error);
      }
      domains := domains + [points.value];
    }
    var combos := Combos(domains);
    var cells: seq<map<string, Value>> := [];
    for i := 0 to |combos|
      invariant cells == Cells(Names(knobs), domains)[..i]
    {
      assert combos[i] in combos;
      CombosMembers(domains, combos[i]);
      cells := cells + [CellOf(Names(knobs), combos[i])];
    }
    assert Cells(Names(knobs), domains)[..|combos|] == Cells(Names(knobs), domains);
    r := Ok(cells);
  }

  /** The running product agrees with the number of cells the grid yields. */
  method GridSize(knobs: seq<Knob>) returns (r: Result<nat>)
    ensures match AllPoints(knobs, |knobs|)
            case Err(e) => r == Err(e)
            case Ok(domains) => r == Ok(|Combos(domains)|)
  {
    var size := 1;
    ghost var domains: seq<seq<Value>> := [];
    for i := 0 to |knobs|
      invariant AllPoints(knobs, i) == Ok(domains) && size == ProductSize(domains)
    {
      var points := EnumerateDomain(knobs[i].domain);
      if points.Err? {
        FirstBadDomainStays(knobs, i + 1);
        return Err(points.error);
      }
      ProductAppend(domains, points.value);
      size := size * |points.value|;
      domains := domains + [points.value];
    }
    ProductCounts(domains);
    r := Ok(size);
  }

  lemma {:induction false} ProductAppend(domains: seq<seq<Value>>, d: seq<Value>)
    ensures ProductSize(domains + [d]) == ProductSize(domains) * |d|
  {
    if domains == [] {
      assert domains + [d] == [d] && [d][1..] == [];
      assert ProductSize([d]) == |d| * ProductSize([]);
    } else {
      ProductAppend(domains[1..], d);
      assert (domains + [d])[0] == domains[0] && (domains + [d])[1..] == domains[1..] + [d];
      assert |domains[0]| * (ProductSize(domains[1..]) * |d|) == (|domains[0]| * ProductSize(domains[1..])) * |d|;
    }
  }

  // ------------------------------------------------------------------- split

  datatype Edit = Edit(path: Path, value: Value)

  /** The last knob of a name, as a dict comprehension keeps it. */
  function ByName(knobs: seq<Knob>, name: string): (k: int)
    ensures -1 <= k < |knobs| && (k >= 0 ==> knobs[k].name == name)
    ensures k == -1 <==> forall i | 0 <= i < |knobs| :: knobs[i].name != name
  {
    if knobs == [] then -1
    else if knobs[|knobs| - 1].name == name then |knobs| - 1
    else ByName(knobs[..|knobs| - 1], name)
  }

  datatype Parts = Parts(cli: seq<(string, Value)>, graph: seq<(string, Value)>, edits: seq<Edit>)

  function PartsOf(knobs: seq<Knob>, values: seq<(string, Value)>, n: nat): Result<Parts>
    requires n <= |values|
  {
    if n == 0 then Ok(Parts([], [], []))
    else
      match PartsOf(knobs, values, n - 1)
      case Err(e) => Err(e)
      case Ok(p) =>
        var k := ByName(knobs, values[n - 1].0);
        if k < 0 then Err(UnknownKnob(values[n - 1].0))
        else
          match knobs[k].kind
          case Cli => Ok(p.(cli := p.cli + [values[n - 1]]))
          case OfGraph(path) => Ok(p.(graph := p.graph + [values[n - 1]],
                                edits := p.edits + [Edit(path, values[n - 1].1)]))
  }

  lemma {:induction false} FirstUnknownStays(knobs: seq<Knob>, values: seq<(string, Value)>, n: nat)
    requires n <= |values| && PartsOf(knobs, values, n).Err?
    ensures PartsOf(knobs, values, |values|) == PartsOf(knobs, values, n)
    decreases |values| - n
  {
    if n < |values| {
      FirstUnknownStays(knobs, values, n + 1);
    }
  }

  method Split(knobs: seq<Knob>, values: seq<(string, Value)>) returns (r: Result<(seq<(string, Value)>, seq<Edit>)>)
    ensures match PartsOf(knobs, values, |values|)
            case Err(e) => r == Err(e)
            case Ok(p) => r == Ok((p.cli, p.edits))
  {
    var cli: seq<(string, Value)> := [];
    var edits: seq<Edit> := [];
    for i := 0 to |values|
      invariant PartsOf(knobs, values, i).Ok?
      invariant cli == PartsOf(knobs, values, i).value.cli && edits == PartsOf(knobs, values, i).value.edits
    {
      var k := ByName(knobs, values[i].0);
      if k < 0 {
        FirstUnknownStays(knobs, values, i + 1);
        return Err(UnknownKnob(values[i].0));
      }
      match knobs[k].kind {
        case Cli =>
          cli := cli + [values[i]];
        case OfGraph(path) =>
          edits := edits + [Edit(path, values[i].1)];
      }
    }
    r := Ok((cli, edits));
  }

  lemma {:induction false} SplitAcceptsKnown(knobs: seq<Knob>, values: seq<(string, Value)>, n: nat)
    requires n <= |values|
    ensures PartsOf(knobs, values, n).Ok? <==> forall i | 0 <= i < n :: ByName(knobs, values[i].0) >= 0
  {
    hide ByName;
    if n > 0 {
      SplitAcceptsKnown(knobs, values, n - 1);
    }
  }

  /** Where one value went. */
  ghost predicate Routed(knobs: seq<Knob>, p: Parts) {
    && |p.edits| == |p.graph|
    && (forall x <- p.cli :: IsCliValue(knobs, x))
    && forall j | 0 <= j < |p.edits| :: IsEditOf(knobs, p.graph[j], p.edits[j])
  }

  predicate IsCliValue(knobs: seq<Knob>, x: (string, Value)) {
    ByName(knobs, x.0) >= 0 && knobs[ByName(knobs, x.0)].kind.Cli?
  }

  predicate IsEditOf(knobs: seq<Knob>, x: (string, Value), e: Edit) {
    && ByName(knobs, x.0) >= 0
    && knobs[ByName(knobs, x.0)].kind == OfGraph(e.path) && e.value == x.1
  }

  lemma {:induction false} RouteStep(knobs: seq<Knob>, values: seq<(string, Value)>, n: nat)
    requires 0 < n <= |values| && PartsOf(knobs, values, n).Ok?
    ensures PartsOf(knobs, values, n - 1).Ok?
    ensures var before, p, x := PartsOf(knobs, values, n - 1).value, PartsOf(knobs, values, n).value, values[n - 1];
            || (p == before.(cli := before.cli + [x]) && IsCliValue(knobs, x))
            || (|p.edits| > 0 && IsEditOf(knobs, x, p.edits[|p.edits| - 1]) &&
                p == before.(graph := before.graph + [x], edits := before.edits + [p.edits[|p.edits| - 1]]))
  {
    hide ByName;
  }

  lemma {:induction false} RoutedStep(knobs: seq<Knob>, before: Parts, p: Parts, x: (string, Value))
    requires Routed(knobs, before)
    requires || (p == before.(cli := before.cli + [x]) && IsCliValue(knobs, x))
             || (|p.edits| > 0 && IsEditOf(knobs, x, p.edits[|p.edits| - 1]) &&
                 p == before.(graph := before.graph + [x], edits := before.edits + [p.edits[|p.edits| - 1]]))
    ensures Routed(knobs, p)
    ensures multiset(p.cli) + multiset(p.graph) == multiset(before.cli) + multiset(before.graph) + multiset{x}
  {
    hide IsCliValue, IsEditOf;
  }

  /** Every value is routed exactly once: the two parts together are the configuration,
      and each graph value became one edit of its own knob's path. */
  lemma {:induction false} SplitRoutesOnce(knobs: seq<Knob>, values: seq<(string, Value)>, n: nat)
    requires n <= |values| && PartsOf(knobs, values, n).Ok?
    ensures var p := PartsOf(knobs, values, n).value;
            multiset(p.cli) + multiset(p.graph) == multiset(values[..n]) && Routed(knobs, p)
  {
    if n > 0 {
      RouteStep(knobs, values, n);
      SplitRoutesOnce(knobs, values, n - 1);
      RoutedStep(knobs, PartsOf(knobs, values, n - 1).value, PartsOf(knobs, values, n).value, values[n - 1]);
      hide *;
      assert values[..n] == values[..n - 1] + [values[n - 1]];
    }
  }
}
