/** Dependency indexes as text: the Python printer, the Rust parser, and which
    index lists survive the trip. */
module IndexText {
  import opened Common

  // ---------------------------------------------------------------- decimals

  const ISIZE_MAX: int := 0x7FFF_FFFF_FFFF_FFFF
  const ISIZE_MIN: int := -0x8000_0000_0000_0000

  predicate InRange(n: int) {
    ISIZE_MIN <= n <= ISIZE_MAX
  }

  function DigitChar(d: nat): char
    requires d < 10
  {
    ('0' as int + d) as char
  }

  predicate IsDigit(c: char) {
    '0' <= c <= '9'
  }

  function DigitValue(c: char): nat
    requires IsDigit(c)
  {
    c as int - '0' as int
  }

  function ShowNat(n: nat): (s: string)
    ensures s != [] && forall c <- s :: IsDigit(c)
  {
    if n < 10 then [DigitChar(n)] else ShowNat(n / 10) + [DigitChar(n % 10)]
  }

  /** Python's `str` of an int. */
  function Show(n: int): string {
    if n < 0 then "-" + ShowNat(-n) else ShowNat(n)
  }

  function ParseDigits(s: string): Option<nat> {
    if s == [] || !IsDigit(s[|s| - 1]) then None
    else if |s| == 1 then Some(DigitValue(s[0]))
    else
      match ParseDigits(s[..|s| - 1])
      case None => None
      case Some(high) => Some(high * 10 + DigitValue(s[|s| - 1]))
  }

  /** Rust's `parse::<isize>`: an optional sign, at least one digit, in range. */
  function ParseIsize(s: string): Option<int> {
    if s == [] then None
    else
      var digits := ParseDigits(if s[0] == '-' || s[0] == '+' then s[1..] else s);
      if digits.None? then None
      else
        var size: int := digits.value;
        var n := if s[0] == '-' then -size else size;
        if InRange(n) then Some(n) else None
  }

  lemma {:induction false} DigitsRoundTrip(n: nat)
    ensures ParseDigits(ShowNat(n)) == Some(n)
  {
    if n >= 10 {
      DigitsRoundTrip(n / 10);
      var s := ShowNat(n);
      assert s[..|s| - 1] == ShowNat(n / 10);
    }
  }

  lemma {:induction false} ShowRoundTrip(n: int)
    requires InRange(n)
    ensures ParseIsize(Show(n)) == Some(n)
  {
    hide ShowNat, ParseDigits;
    var s := Show(n);
    if n < 0 {
      DigitsRoundTrip(-n);
      assert s[1..] == ShowNat(-n);
    } else {
      DigitsRoundTrip(n);
      assert s[0] in ShowNat(n);
    }
  }

  // --------------------------------------------------------- splitting, joining

  /** Rust's `str::split`: always at least one piece. */
  function Split(s: string, sep: char): (pieces: seq<string>)
    ensures |pieces| >= 1
  {
    if s == [] then [[]]
    else if s[0] == sep then [[]] + Split(s[1..], sep)
    else
      var rest := Split(s[1..], sep);
      [[s[0]] + rest[0]] + rest[1..]
  }

  predicate IsBlank(c: char) {
    c == ' ' || c == '\t' || c == '\n' || c == '\r'
  }

  function Trim(s: string): string {
    if s == [] then s
    else if IsBlank(s[0]) then Trim(s[1..])
    else if IsBlank(s[|s| - 1]) then Trim(s[..|s| - 1])
    else s
  }

  lemma {:induction false} SplitAt(a: string, sep: char, b: string)
    requires sep !in a
    ensures Split(a + [sep] + b, sep) == [a] + Split(b, sep)
    ensures Split(a, sep) == [a]
  {
    if a == [] {
      assert a + [sep] + b == [sep] + b;
      assert ([sep] + b)[1..] == b;
    } else {
      var whole := a + [sep] + b;
      assert whole[1..] == a[1..] + [sep] + b && whole[0] == a[0];
      SplitAt(a[1..], sep, b);
      assert a == [a[0]] + a[1..];
    }
  }

  function Join(xs: seq<int>): string {
    if xs == [] then []
    else if |xs| == 1 then Show(xs[0])
    else Show(xs[0]) + [','] + Join(xs[1..])
  }

  lemma {:induction false} ShowHasNo(n: int, c: char)
    requires !IsDigit(c) && c != '-'
    ensures c !in Show(n)
  {
    if n < 0 {
      assert forall x <- Show(n) :: x == '-' || x in ShowNat(-n);
    }
  }

  lemma {:induction false} SplitJoin(xs: seq<int>)
    requires xs != []
    ensures Split(Join(xs), ',') == seq(|xs|, i requires 0 <= i < |xs| => Show(xs[i]))
  {
    ShowHasNo(xs[0], ',');
    if |xs| == 1 {
      SplitAt(Show(xs[0]), ',', []);
    } else {
      SplitAt(Show(xs[0]), ',', Join(xs[1..]));
      SplitJoin(xs[1..]);
    }
  }

  lemma {:induction false} TrimShow(n: int)
    ensures Trim(Show(n)) == Show(n)
  {
    var s := Show(n);
    assert forall c <- s :: c == '-' || IsDigit(c) by {
      if n < 0 {
        assert forall x <- s :: x == '-' || x in ShowNat(-n);
      }
    }
    assert s[0] in s && s[|s| - 1] in s;
  }

  // ---------------------------------------------------------------- printer

  datatype Start = Many(offsets: seq<int>) | At(n: int) | Named(name: string)
  datatype End = NoEnd | Literal(n: int) | Variable(name: string)

  /** The text of a dependency's `indexes` field. */
  function Indexes(start: Start, end: End): string {
    match start
    case Many(offsets) => Join(offsets)
    case At(n) => UpTo(Show(n), end)
    case Named(name) => UpTo(name, end)
  }

  function UpTo(first: string, end: End): string {
    match end
    case NoEnd => first
    case Literal(n) => first + ['-'] + Show(n)
    case Variable(name) => first + ['-'] + name
  }

  // ----------------------------------------------------------------- parser

  datatype ParseError =
    | InvalidIndex(token: string)
    | InvalidStart(token: string) | StartNotANumber(token: string)
    | InvalidEnd(token: string) | EndNotANumber(token: string)
    | InvalidRef(token: string) | RefNotANumber(token: string)

  datatype Result<+T> = Ok(value: T) | Err(error: ParseError)

  /** Initialization objects by name, with their first value as a usize when it is
      a non-negative number. */
  type Objects = map<string, Option<nat>>

  /** `as isize` on a 64-bit usize. */
  function AsIsize(n: nat): int {
    var low := n % (2 * (ISIZE_MAX + 1));
    if low <= ISIZE_MAX then low else low - 2 * (ISIZE_MAX + 1)
  }

  /** One past a literal end; the addition wraps. */
  function PastEnd(n: int): int {
    if n == ISIZE_MAX then ISIZE_MIN else n + 1
  }

  function RangeSeq(lo: int, hi: int): seq<int> {
    if hi <= lo then [] else seq(hi - lo, i => lo + i)
  }

  function RangeStart(token: string, objs: Objects): Result<int> {
    if ParseIsize(token).Some? then Ok(ParseIsize(token).value)
    else if token !in objs then Err(InvalidStart(token))
    else if objs[token].None? then Err(StartNotANumber(token))
    else Ok(AsIsize(objs[token].value))
  }

  function RangeEnd(token: string, objs: Objects): Result<int> {
    if ParseIsize(token).Some? then Ok(PastEnd(ParseIsize(token).value))
    else if token !in objs then Err(InvalidEnd(token))
    else if objs[token].None? then Err(EndNotANumber(token))
    else Ok(AsIsize(objs[token].value))
  }

  function SingleRef(token: string, objs: Objects): Result<int> {
    if ParseIsize(token).Some? then Ok(ParseIsize(token).value)
    else if token !in objs then Err(InvalidRef(token))
    else if objs[token].None? then Err(RefNotANumber(token))
    else Ok(AsIsize(objs[token].value))
  }

  function ParseList(tokens: seq<string>): Result<seq<int>> {
    if tokens == [] then Ok([])
    else
      var before := ParseList(tokens[..|tokens| - 1]);
      var token := Trim(tokens[|tokens| - 1]);
      if before.Err? then before
      else if ParseIsize(token).None? then Err(InvalidIndex(token))
      else Ok(before.value + [ParseIsize(token).value])
  }

  function Parsed(indexes: string, objs: Objects): Result<seq<int>> {
    if ',' in indexes then ParseList(Split(indexes, ','))
    else if '-' in indexes then
      var range := Split(indexes, '-');
      var start := RangeStart(range[0], objs);
      if start.Err? then Err(start.error)
      else if |range| < 2 then Err(InvalidEnd(""))
      else
        var end := RangeEnd(range[1], objs);
        if end.Err? then Err(end.error) else Ok(RangeSeq(start.value, end.value))
    else
      var single := SingleRef(indexes, objs);
      if single.Err? then Err(single.error) else Ok([single.value])
  }

  lemma {:induction false} SplitInTwo(s: string, sep: char)
    requires sep in s
    ensures |Split(s, sep)| >= 2
  {
    if s[0] != sep {
      SplitInTwo(s[1..], sep);
    }
  }

  lemma {:induction false} ListErrorIsFirst(tokens: seq<string>, i: nat)
    requires i <= |tokens| && ParseList(tokens[..i]).Err?
    ensures ParseList(tokens) == ParseList(tokens[..i])
    decreases |tokens| - i
  {
    if i == |tokens| {
      assert tokens[..i] == tokens;
    } else {
      assert tokens[..i + 1][..i] == tokens[..i];
      ListErrorIsFirst(tokens, i + 1);
    }
  }

  /** The parser's three cases, pushing indexes one by one. */
  method ParseIndexes(indexes: string, objs: Objects) returns (r: Result<seq<int>>)
    ensures r == Parsed(indexes, objs)
  {
    var indexVec: seq<int> := [];
    if ',' in indexes {
      var tokens := Split(indexes, ',');
      for i := 0 to |tokens|
        invariant ParseList(tokens[..i]) == Ok(indexVec)
      {
        assert tokens[..i + 1][..i] == tokens[..i];
        var token := Trim(tokens[i]);
        var val := ParseIsize(token);
        if val.None? {
          ListErrorIsFirst(tokens, i + 1);
          return Err(InvalidIndex(token));
        }
        indexVec := indexVec + [val.value];
      }
      assert tokens[..|tokens|] == tokens;
    } else if '-' in indexes {
      SplitInTwo(indexes, '-');
      var range := Split(indexes, '-');
      var start := RangeStart(range[0], objs);
      if start.Err? { return Err(start.error); }
      var end := RangeEnd(range[1], objs);
      if end.Err? { return Err(end.error); }
      var i := start.value;
      while i < end.value
        invariant indexVec == RangeSeq(start.value, i)
        invariant start.value <= i
        invariant i <= end.value || i == start.value
      {
        indexVec := indexVec + [i];
        i := i + 1;
      }
    } else {
      var single := SingleRef(indexes, objs);
      if single.Err? { return Err(single.error); }
      indexVec := [single.value];
    }
    r := Ok(indexVec);
  }

  // -------------------------------------------------------------- round trip

  lemma {:induction false} ParseShownList(xs: seq<int>)
    requires forall x <- xs :: InRange(x)
    ensures ParseList(seq(|xs|, i requires 0 <= i < |xs| => Show(xs[i]))) == Ok(xs)
  {
    if xs != [] {
      var n := |xs| - 1;
      var shown := seq(|xs|, i requires 0 <= i < |xs| => Show(xs[i]));
      ParseShownList(xs[..n]);
      assert shown[..n] == seq(n, i requires 0 <= i < n => Show(xs[..n][i]));
      TrimShow(xs[n]);
      assert xs[n] in xs;
      ShowRoundTrip(xs[n]);
      assert xs == xs[..n] + [xs[n]];
    }
  }

  lemma {:induction false} CommaInJoin(xs: seq<int>)
    ensures ',' in Join(xs) <==> |xs| >= 2
  {
    if xs != [] {
      ShowHasNo(xs[0], ',');
      if |xs| >= 2 {
        assert Join(xs)[|Show(xs[0])|] == ',';
      }
    }
  }

  lemma {:induction false} DashInShow(n: int)
    ensures '-' in Show(n) <==> n < 0
  {
    if n < 0 {
      assert Show(n)[0] == '-';
    }
  }

  /** "-k" alone is read as a range with an empty start. */
  lemma {:induction false} LoneNegative(n: int, objs: Objects)
    requires InRange(n) && n < 0 && "" !in objs
    ensures Parsed(Show(n), objs) == Err(InvalidStart(""))
  {
    DashInShow(n);
    ShowHasNo(n, ',');
    SplitAt([], '-', ShowNat(-n));
    assert Show(n) == [] + ['-'] + ShowNat(-n);
  }

  /** A list of offsets comes back if and only if it has two or more, or one that is
      not negative. */
  lemma {:induction false} ListComesBack(xs: seq<int>, objs: Objects)
    requires (forall x <- xs :: InRange(x)) && "" !in objs
    ensures Parsed(Indexes(Many(xs), NoEnd), objs) == Ok(xs) <==>
            |xs| >= 2 || (|xs| == 1 && xs[0] >= 0)
  {
    CommaInJoin(xs);
    if |xs| >= 2 {
      SplitJoin(xs);
      ParseShownList(xs);
    } else if |xs| == 1 {
      assert xs == [xs[0]] && xs[0] in xs;
      DashInShow(xs[0]);
      if xs[0] < 0 {
        LoneNegative(xs[0], objs);
      } else {
        ShowRoundTrip(xs[0]);
      }
    }
  }

  /** Text that names an object rather than a number, and that the parser will not
      cut up. */
  predicate PlainName(name: string) {
    ParseIsize(name).None? && '-' !in name && ',' !in name
  }

  predicate Bound(name: string, objs: Objects) {
    PlainName(name) && name in objs && objs[name].Some? && objs[name].value <= ISIZE_MAX
  }

  predicate GoodStart(start: Start, objs: Objects) {
    match start
    case Many(_) => false
    case At(n) => 0 <= n <= ISIZE_MAX
    case Named(name) => Bound(name, objs)
  }

  predicate GoodEnd(end: End, objs: Objects) {
    match end
    case NoEnd => true
    case Literal(n) => 0 <= n < ISIZE_MAX
    case Variable(name) => Bound(name, objs)
  }

  function StartValue(start: Start, objs: Objects): int
    requires GoodStart(start, objs)
  {
    if start.At? then start.n else objs[start.name].value
  }

  /** What a dependency selects: a literal end is included, a variable end is not. */
  function Selected(start: Start, end: End, objs: Objects): seq<int>
    requires GoodStart(start, objs) && GoodEnd(end, objs)
  {
    var lo := StartValue(start, objs);
    match end
    case NoEnd => [lo]
    case Literal(n) => RangeSeq(lo, n + 1)
    case Variable(name) => RangeSeq(lo, objs[name].value)
  }

  /** The text between and around the dash, for parts free of separators. */
  lemma {:induction false} SplitRange(a: string, b: string)
    requires '-' !in a && ',' !in a && '-' !in b && ',' !in b
    ensures ',' !in a + ['-'] + b && '-' in a + ['-'] + b
    ensures Split(a + ['-'] + b, '-') == [a, b]
  {
    SplitAt(a, '-', b);
    SplitAt(b, '-', []);
    assert (a + ['-'] + b)[|a|] == '-';
    assert [a] + [b] == [a, b];
  }

  lemma {:induction false} ShownNatIsPlain(n: nat)
    requires n <= ISIZE_MAX
    ensures '-' !in Show(n) && ',' !in Show(n) && ParseIsize(Show(n)) == Some(n)
  {
    DashInShow(n);
    ShowHasNo(n, ',');
    ShowRoundTrip(n);
  }

  lemma {:induction false} RangeTextParses(a: string, b: string, objs: Objects)
    requires '-' !in a && ',' !in a && '-' !in b && ',' !in b
    requires RangeStart(a, objs).Ok? && RangeEnd(b, objs).Ok?
    ensures Parsed(a + ['-'] + b, objs) == Ok(RangeSeq(RangeStart(a, objs).value, RangeEnd(b, objs).value))
  {
    SplitRange(a, b);
  }

  lemma {:induction false} GoodStartReads(start: Start, objs: Objects)
    requires GoodStart(start, objs)
    ensures var first := if start.At? then Show(start.n) else start.name;
            && '-' !in first && ',' !in first
            && RangeStart(first, objs) == Ok(StartValue(start, objs))
            && SingleRef(first, objs) == Ok(StartValue(start, objs))
  {
    if start.At? { ShownNatIsPlain(start.n); }
  }

  lemma {:induction false} SingleTextParses(a: string, objs: Objects)
    requires '-' !in a && ',' !in a && SingleRef(a, objs).Ok?
    ensures Parsed(a, objs) == Ok([SingleRef(a, objs).value])
  {
  }

  /** `first`, the printed start, followed by any good end. */
  lemma {:induction false} UpToComesBack(first: string, lo: int, end: End, objs: Objects)
    requires '-' !in first && ',' !in first && GoodEnd(end, objs)
    requires RangeStart(first, objs) == Ok(lo) && SingleRef(first, objs) == Ok(lo)
    ensures Parsed(UpTo(first, end), objs) == Ok(
              match end
              case NoEnd => [lo]
              case Literal(n) => RangeSeq(lo, n + 1)
              case Variable(name) => RangeSeq(lo, objs[name].value))
  {
    match end
    case NoEnd =>
      SingleTextParses(first, objs);
    case Literal(n) =>
      ShownNatIsPlain(n);
      EndReads(Show(n), n + 1, objs);
      RangeTextParses(first, Show(n), objs);
    case Variable(name) =>
      EndReads(name, objs[name].value, objs);
      RangeTextParses(first, name, objs);
  }

  lemma {:induction false} EndReads(token: string, hi: int, objs: Objects)
    requires || (ParseIsize(token) == Some(hi - 1) && hi <= ISIZE_MAX)
             || (Bound(token, objs) && objs[token].value == hi)
    ensures RangeEnd(token, objs) == Ok(hi)
  {
  }

  /** Print, then parse: single indexes and ranges, literal or variable at either
      end, select what they were meant to. */
  lemma {:induction false} RangeComesBack(start: Start, end: End, objs: Objects)
    requires GoodStart(start, objs) && GoodEnd(end, objs)
    ensures Parsed(Indexes(start, end), objs) == Ok(Selected(start, end, objs))
  {
    GoodStartReads(start, objs);
    UpToComesBack(if start.At? then Show(start.n) else start.name, StartValue(start, objs), end, objs);
  }

  lemma {:induction false} NegativeStartIsRejected(a: int, rest: string, objs: Objects)
    requires InRange(a) && a < 0 && ',' !in rest && "" !in objs
    ensures Parsed(Show(a) + ['-'] + rest, objs) == Err(InvalidStart(""))
  {
    ShowHasNo(a, ',');
    var tail := ShowNat(-a) + ['-'] + rest;
    var s := Show(a) + ['-'] + rest;
    assert s == [] + ['-'] + tail;
    assert RangeStart("", objs) == Err(InvalidStart(""));
    hide Show, ShowNat, Split, RangeStart, RangeEnd, ParseIsize, ParseList;
    EmptyStart(s, tail, objs);
  }

  lemma {:induction false} EmptyStart(s: string, tail: string, objs: Objects)
    requires s == [] + ['-'] + tail && ',' !in s && RangeStart("", objs).Err?
    ensures Parsed(s, objs) == Err(RangeStart("", objs).error)
  {
    SplitAt([], '-', tail);
    hide Split, RangeStart, RangeEnd, ParseList, SingleRef;
    assert s[0] == '-';
    var pieces := Split(s, '-');
    assert pieces[0] == [];
  }

  lemma {:induction false} NegativeEndIsRejected(a: int, b: int, objs: Objects)
    requires 0 <= a <= ISIZE_MAX && b < 0 && "" !in objs
    ensures Parsed(Show(a) + ['-'] + Show(b), objs) == Err(InvalidEnd(""))
  {
    ShownNatIsPlain(a);
    ShowHasNo(b, ',');
    SplitAt(Show(a), '-', Show(b));
    SplitAt([], '-', ShowNat(-b));
    assert Show(b) == [] + ['-'] + ShowNat(-b);
    assert (Show(a) + ['-'] + Show(b))[|Show(a)|] == '-';
  }

  /** A literal range comes back end-inclusive if and only if neither bound is
      negative (no object being named ""). */
  lemma {:induction false} LiteralRangeComesBack(a: int, b: int, objs: Objects)
    requires InRange(a) && InRange(b) && b < ISIZE_MAX && "" !in objs
    ensures Parsed(Indexes(At(a), Literal(b)), objs) == Ok(RangeSeq(a, b + 1)) <==> a >= 0 && b >= 0
  {
    var text := Show(a) + ['-'] + Show(b);
    assert Indexes(At(a), Literal(b)) == text;
    if a < 0 {
      ShowHasNo(b, ',');
      NegativeStartIsRejected(a, Show(b), objs);
      assert Parsed(text, objs).Err?;
    } else if b < 0 {
      NegativeEndIsRejected(a, b, objs);
      assert Parsed(text, objs).Err?;
    } else {
      RangeComesBack(At(a), Literal(b), objs);
      assert Selected(At(a), Literal(b), objs) == RangeSeq(a, b + 1);
    }
  }

  lemma {:induction false} RangeGrows(lo: int, hi: int)
    requires lo <= hi
    ensures RangeSeq(lo, hi + 1) == RangeSeq(lo, hi) + [hi]
  {
  }

  /** The off-by-one the documentation warns about: the same bound, written as a
      literal, selects one instance more than as a variable. */
  lemma {:induction false} LiteralEndSelectsOneMore(a: nat, name: string, objs: Objects)
    requires Bound(name, objs) && a <= objs[name].value < ISIZE_MAX
    ensures var literal := Parsed(Indexes(At(a), Literal(objs[name].value)), objs);
            var variable := Parsed(Indexes(At(a), Variable(name)), objs);
            literal.Ok? && variable.Ok? && literal.value == variable.value + [objs[name].value]
  {
    RangeComesBack(At(a), Literal(objs[name].value), objs);
    RangeComesBack(At(a), Variable(name), objs);
    RangeGrows(a, objs[name].value);
    assert Selected(At(a), Literal(objs[name].value), objs) == RangeSeq(a, objs[name].value + 1);
    assert Selected(At(a), Variable(name), objs) == RangeSeq(a, objs[name].value);
    hide *;
  }
}
