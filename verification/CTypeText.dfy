/** C declarations as text: how type spellings are normalised, and how a declaration
    line is cut into its parts. */
module CTypeText {
  import opened Common
  import opened IndexText
  import CHeader

  // ------------------------------------------------------------ normalisation

  /** `split_whitespace`: the maximal runs of non-blank characters. */
  function Words(s: string): (ws: seq<string>)
    ensures s != [] && !IsBlank(s[|s| - 1]) ==> ws != []
    ensures forall i | 0 <= i < |ws| :: ws[i] != []
  {
    if s == [] then []
    else
      var n := |s| - 1;
      var before := Words(s[..n]);
      if IsBlank(s[n]) then before
      else if n > 0 && !IsBlank(s[n - 1]) then before[..|before| - 1] + [before[|before| - 1] + [s[n]]]
      else before + [[s[n]]]
  }

  function JoinWords(ws: seq<string>): string {
    if ws == [] then []
    else if |ws| == 1 then ws[0]
    else JoinWords(ws[..|ws| - 1]) + [' '] + ws[|ws| - 1]
  }

  function DropBlank(s: string): string {
    if s != [] && s[|s| - 1] == ' ' then s[..|s| - 1] else s
  }

  /** The star pass: a blank right before a '*' is removed. */
  function StarPass(s: string): string {
    if s == [] then []
    else
      var n := |s| - 1;
      if s[n] == '*' then DropBlank(StarPass(s[..n])) + ['*'] else StarPass(s[..n]) + [s[n]]
  }

  /** The normal form, character by character: `pending` is a blank not yet written. */
  datatype Scan = Scan(out: string, pending: bool)

  function Feed(st: Scan, c: char, stars: bool): Scan {
    if IsBlank(c) then Scan(st.out, st.out != [])
    else Scan(st.out + (if st.pending && !(stars && c == '*') then [' '] else []) + [c], false)
  }

  function Squeezed(s: string, stars: bool): Scan {
    if s == [] then Scan([], false) else Feed(Squeezed(s[..|s| - 1], stars), s[|s| - 1], stars)
  }

  function Normal(s: string): string {
    Squeezed(s, true).out
  }

  lemma {:induction false} JoinedIsEmpty(ws: seq<string>)
    requires forall i | 0 <= i < |ws| :: ws[i] != []
    ensures JoinWords(ws) == [] <==> ws == []
  {
    assert |ws| == 1 ==> ws[0] != [];
  }

  /** Splitting at blanks and joining with single ones is squeezing them. */
  lemma {:induction false} WordsAreSqueezed(s: string)
    ensures JoinWords(Words(s)) == Squeezed(s, false).out
    ensures Squeezed(s, false).pending <==> s != [] && IsBlank(s[|s| - 1]) && Words(s) != []
  {
    hide JoinWords, IsBlank;
    JoinedIsEmpty([]);
    if s != [] {
      var n := |s| - 1;
      WordsAreSqueezed(s[..n]);
      var before := Words(s[..n]);
      JoinedIsEmpty(before);
      if !IsBlank(s[n]) {
        if n > 0 && !IsBlank(s[n - 1]) {
          LastWordGrows(before, s[n]);
          assert JoinWords(before) + [] + [s[n]] == JoinWords(before) + [s[n]];
        } else {
          NewWord(before, [s[n]]);
        }
      }
    }
  }

  lemma {:induction false} LastWordGrows(ws: seq<string>, c: char)
    requires ws != []
    ensures JoinWords(ws[..|ws| - 1] + [ws[|ws| - 1] + [c]]) == JoinWords(ws) + [c]
  {
    var n := |ws| - 1;
    var grown := ws[..n] + [ws[n] + [c]];
    assert grown[..n] == ws[..n] && grown[n] == ws[n] + [c];
    if n > 0 {
      assert JoinWords(ws[..n]) + [' '] + (ws[n] + [c]) == (JoinWords(ws[..n]) + [' '] + ws[n]) + [c];
    }
  }

  lemma {:induction false} NewWord(ws: seq<string>, w: string)
    ensures JoinWords(ws + [w]) == if ws == [] then w else JoinWords(ws) + [' '] + w
  {
    assert (ws + [w])[..|ws|] == ws;
  }

  /** Written text never ends in a blank, nor begins with one. */
  lemma {:induction false} CleanEnds(s: string, stars: bool)
    ensures var out := Squeezed(s, stars).out;
            out != [] ==> !IsBlank(out[0]) && !IsBlank(out[|out| - 1])
    ensures Squeezed(s, stars).pending ==> Squeezed(s, stars).out != []
  {
    if s != [] {
      CleanEnds(s[..|s| - 1], stars);
    }
  }

  lemma {:induction false} StarPassOneMore(s: string, c: char)
    ensures StarPass(s + [c]) == if c == '*' then DropBlank(StarPass(s)) + ['*'] else StarPass(s) + [c]
  {
    assert (s + [c])[..|s|] == s;
  }

  predicate Matches(a: Scan, b: Scan) {
    StarPass(a.out) == b.out && a.pending == b.pending && (a.out == [] <==> b.out == [])
  }

  lemma {:induction false} StarStep(a: Scan, b: Scan, c: char)
    requires Matches(a, b) && !IsBlank(c)
    requires b.out != [] ==> !IsBlank(b.out[|b.out| - 1])
    ensures Matches(Feed(a, c, false), Feed(b, c, true))
  {
    hide StarPass;
    if a.pending {
      StarPassOneMore(a.out, ' ');
      StarPassOneMore(a.out + [' '], c);
      assert (b.out + [' '])[..|b.out|] == b.out;
      assert b.out + [] + [c] == b.out + [c];
    } else {
      StarPassOneMore(a.out, c);
      assert a.out + [] + [c] == a.out + [c] && b.out + [] + [c] == b.out + [c];
    }
  }

  /** The star pass turns the squeezed text into the normal form. */
  lemma {:induction false} StarPassIsNormal(s: string)
    ensures Matches(Squeezed(s, false), Squeezed(s, true))
  {
    if s != [] {
      var n := |s| - 1;
      StarPassIsNormal(s[..n]);
      CleanEnds(s[..n], true);
      hide StarPass;
      if !IsBlank(s[n]) {
        StarStep(Squeezed(s[..n], false), Squeezed(s[..n], true), s[n]);
      }
    }
  }

  lemma {:induction false} TrimOfClean(s: string)
    requires s != [] ==> !IsBlank(s[0]) && !IsBlank(s[|s| - 1])
    ensures Trim(s) == s
  {
  }

  /** Collapse the blanks, then push characters one by one, popping a blank in front
      of a star, then trim. */
  method NormaliseCType(raw: string) returns (r: string)
    ensures r == Normal(raw)
  {
    var s := JoinWords(Words(raw));
    var result: string := "";
    for i := 0 to |s|
      invariant result == StarPass(s[..i])
    {
      assert s[..i + 1] == s[..i] + [s[i]];
      StarPassOneMore(s[..i], s[i]);
      if s[i] == '*' {
        if result != [] && result[|result| - 1] == ' ' {
          result := result[..|result| - 1];
        }
        result := result + ['*'];
      } else {
        result := result + [s[i]];
      }
    }
    assert s[..|s|] == s;
    WordsAreSqueezed(raw);
    StarPassIsNormal(raw);
    CleanEnds(raw, true);
    TrimOfClean(result);
    r := Trim(result);
  }

  /** A text in normal form: no blank at either end, only single spaces inside, and
      none in front of a star. */
  predicate IsNormal(s: string) {
    && (s != [] ==> !IsBlank(s[0]) && !IsBlank(s[|s| - 1]))
    && (forall i | 0 <= i < |s| :: IsBlank(s[i]) ==> s[i] == ' ')
    && (forall i | 0 <= i < |s| - 1 :: IsBlank(s[i]) ==> !IsBlank(s[i + 1]) && s[i + 1] != '*')
  }

  lemma {:induction false} NormalIsNormal(s: string)
    ensures IsNormal(Normal(s))
  {
    if s != [] {
      var before, after := Squeezed(s[..|s| - 1], true), Squeezed(s, true);
      NormalIsNormal(s[..|s| - 1]);
      CleanEnds(s[..|s| - 1], true);
      CleanEnds(s, true);
    }
  }

  /** Squeezing a prefix of a normal text gives it back, up to a blank at its end. */
  lemma {:induction false} NormalPrefix(s: string, n: nat)
    requires IsNormal(s) && n <= |s|
    ensures Squeezed(s[..n], true) ==
            if n > 0 && IsBlank(s[n - 1]) then Scan(s[..n - 1], true) else Scan(s[..n], false)
  {
    if n > 0 {
      NormalPrefix(s, n - 1);
      assert s[..n][..n - 1] == s[..n - 1] && s[..n][n - 1] == s[n - 1];
      assert s[..n] == s[..n - 1] + [s[n - 1]];
      if n > 1 {
        assert s[..n - 1] == s[..n - 2] + [s[n - 2]];
      }
    }
  }

  /** Normalising is idempotent, and exactly the normal texts are left alone. */
  lemma {:induction false} NormalisingSettles(s: string)
    ensures Normal(s) == s <==> IsNormal(s)
    ensures Normal(Normal(s)) == Normal(s)
  {
    NormalIsNormal(s);
    NormalPrefix(Normal(s), |Normal(s)|);
    assert Normal(s)[..|Normal(s)|] == Normal(s);
    if IsNormal(s) {
      NormalPrefix(s, |s|);
      assert s[..|s|] == s;
    }
  }

  lemma {:induction false} SqueezeFrom(a: string, b: string, q: string, stars: bool)
    requires Squeezed(a, stars) == Squeezed(b, stars)
    ensures Squeezed(a + q, stars) == Squeezed(b + q, stars)
  {
    if q == [] {
      assert a + q == a && b + q == b;
    } else {
      assert (a + q)[..|a + q| - 1] == a + q[..|q| - 1] && (b + q)[..|b + q| - 1] == b + q[..|q| - 1];
      SqueezeFrom(a, b, q[..|q| - 1], stars);
    }
  }

  lemma {:induction false} SqueezeOneMore(s: string, c: char, stars: bool)
    ensures Squeezed(s + [c], stars) == Feed(Squeezed(s, stars), c, stars)
  {
    assert (s + [c])[..|s|] == s;
  }

  /** One respelling: a run of blanks loses one (of any kind), a blank in front of a star
      goes, or a blank at either end does. */
  ghost predicate OneLess(a: string, b: string) {
    || (exists p, q, x, y, z :: ShorterRun(a, b, p, q, x, y, z))
    || (exists p, q, x :: NoBlankBeforeStar(a, b, p, q, x))
    || (a != [] && IsBlank(a[0]) && b == a[1..])
    || (a != [] && IsBlank(a[|a| - 1]) && b == a[..|a| - 1])
  }

  ghost predicate ShorterRun(a: string, b: string, p: string, q: string, x: char, y: char, z: char) {
    IsBlank(x) && IsBlank(y) && IsBlank(z) && a == p + [x, y] + q && b == p + [z] + q
  }

  ghost predicate NoBlankBeforeStar(a: string, b: string, p: string, q: string, x: char) {
    IsBlank(x) && a == p + [x, '*'] + q && b == p + ['*'] + q
  }

  /** Spellings linked by respellings, in either direction. */
  ghost predicate Linked(via: seq<string>, a: string, b: string) {
    && via != [] && via[0] == a && via[|via| - 1] == b
    && forall i | 0 < i < |via| :: OneLess(via[i - 1], via[i]) || OneLess(via[i], via[i - 1])
  }

  /** The two differ only in run lengths of blanks, in blanks before a star, and in
      blanks at the ends. */
  ghost predicate SameButBlanks(a: string, b: string) {
    exists via :: Linked(via, a, b)
  }

  lemma {:induction false} OneLessIsNormalAlike(a: string, b: string)
    requires OneLess(a, b)
    ensures Normal(a) == Normal(b)
  {
    hide Normal, IsBlank;
    if p, q, x, y, z :| ShorterRun(a, b, p, q, x, y, z) {
      ShorterRunIsAlike(a, b, p, q, x, y, z);
    } else if p, q, x :| NoBlankBeforeStar(a, b, p, q, x) {
      BlankBeforeStarIsAlike(a, b, p, q, x);
    } else if a != [] && IsBlank(a[0]) && b == a[1..] {
      BlankInFrontIsAlike(a[0], b);
      assert a == [a[0]] + b;
    } else {
      BlankAtEndIsAlike(b, a[|a| - 1]);
      assert a == b + [a[|a| - 1]];
    }
  }

  lemma {:induction false} ShorterRunIsAlike(a: string, b: string, p: string, q: string, x: char, y: char, z: char)
    requires ShorterRun(a, b, p, q, x, y, z)
    ensures Normal(a) == Normal(b)
  {
    hide Squeezed, IsBlank;
    var long, short := p + [x, y], p + [z];
    assert long == p + [x] + [y];
    SqueezeOneMore(p, x, true);
    SqueezeOneMore(p, z, true);
    SqueezeOneMore(p + [x], y, true);
    assert Squeezed(long, true) == Squeezed(short, true);
    SqueezeFrom(long, short, q, true);
  }

  lemma {:induction false} BlankBeforeStarIsAlike(a: string, b: string, p: string, q: string, x: char)
    requires NoBlankBeforeStar(a, b, p, q, x)
    ensures Normal(a) == Normal(b)
  {
    hide Squeezed;
    var long, short := p + [x, '*'], p + ['*'];
    assert long == p + [x] + ['*'];
    SqueezeOneMore(p, x, true);
    SqueezeOneMore(p, '*', true);
    SqueezeOneMore(p + [x], '*', true);
    assert Squeezed(long, true) == Squeezed(short, true);
    SqueezeFrom(long, short, q, true);
  }

  lemma {:induction false} BlankInFrontIsAlike(x: char, q: string)
    requires IsBlank(x)
    ensures Normal([x] + q) == Normal(q)
  {
    assert Squeezed([x], true) == Squeezed([], true) by { SqueezeOneMore([], x, true); assert [] + [x] == [x]; }
    SqueezeFrom([x], [], q, true);
    assert [] + q == q;
  }

  lemma {:induction false} BlankAtEndIsAlike(p: string, x: char)
    requires IsBlank(x)
    ensures Normal(p + [x]) == Normal(p)
  {
    SqueezeOneMore(p, x, true);
  }

  lemma {:induction false} LinkedAreAlike(via: seq<string>, a: string, b: string)
    requires Linked(via, a, b)
    ensures Normal(a) == Normal(b)
  {
    hide OneLess, Normal;
    var n := |via| - 1;
    if n > 0 {
      LinkedAreAlike(via[..n], a, via[n - 1]);
      if OneLess(via[n - 1], b) {
        OneLessIsNormalAlike(via[n - 1], b);
      } else {
        OneLessIsNormalAlike(b, via[n - 1]);
      }
    }
  }

  lemma {:induction false} Reflexive(a: string)
    ensures SameButBlanks(a, a)
  {
    assert Linked([a], a, a);
  }

  lemma {:induction false} Chained(a: string, b: string, c: string)
    requires SameButBlanks(a, b) && SameButBlanks(b, c)
    ensures SameButBlanks(a, c)
  {
    hide OneLess;
    var x, y :| Linked(x, a, b) && Linked(y, b, c);
    var via := x + y[1..];
    forall i | 0 < i < |via| ensures OneLess(via[i - 1], via[i]) || OneLess(via[i], via[i - 1]) {
      if i >= |x| {
        assert via[i] == y[i - |x| + 1];
        assert via[i - 1] == y[i - |x|];
      }
    }
    assert Linked(via, a, c);
  }

  lemma {:induction false} Reversed(a: string, b: string)
    requires SameButBlanks(a, b)
    ensures SameButBlanks(b, a)
  {
    hide OneLess;
    var x :| Linked(x, a, b);
    var via := seq(|x|, i requires 0 <= i < |x| => x[|x| - 1 - i]);
    forall i | 0 < i < |via| ensures OneLess(via[i - 1], via[i]) || OneLess(via[i], via[i - 1]) {
      assert via[i] == x[|x| - 1 - i] && via[i - 1] == x[|x| - i];
    }
    assert Linked(via, b, a);
  }

  lemma {:induction false} OneStep(a: string, b: string)
    requires OneLess(a, b)
    ensures SameButBlanks(a, b)
  {
    assert Linked([a, b], a, b);
  }

  /** What the squeezing scan has written, with the blank it holds back. */
  function Written(st: Scan): string {
    if st.pending then st.out + [' '] else st.out
  }

  /** Only respellings inside the text and in front of it may be carried on. */
  ghost predicate OneLessInside(a: string, b: string) {
    || (exists p, q, x, y, z :: ShorterRun(a, b, p, q, x, y, z))
    || (exists p, q, x :: NoBlankBeforeStar(a, b, p, q, x))
    || (a != [] && IsBlank(a[0]) && b == a[1..])
  }

  lemma {:induction false} CarriesOn(a: string, b: string, c: char)
    requires OneLessInside(a, b)
    ensures OneLessInside(a + [c], b + [c])
  {
    hide IsBlank;
    if p, q, x, y, z :| ShorterRun(a, b, p, q, x, y, z) {
      assert p + [x, y] + (q + [c]) == a + [c] && p + [z] + (q + [c]) == b + [c];
      assert ShorterRun(a + [c], b + [c], p, q + [c], x, y, z);
    } else if p, q, x :| NoBlankBeforeStar(a, b, p, q, x) {
      assert p + [x, '*'] + (q + [c]) == a + [c] && p + ['*'] + (q + [c]) == b + [c];
      assert NoBlankBeforeStar(a + [c], b + [c], p, q + [c], x);
    } else {
      assert (a + [c])[1..] == b + [c];
    }
  }

  ghost predicate LinkedInside(via: seq<string>, a: string, b: string) {
    && via != [] && via[0] == a && via[|via| - 1] == b
    && forall i | 0 < i < |via| :: OneLessInside(via[i - 1], via[i]) || OneLessInside(via[i], via[i - 1])
  }

  lemma {:induction false} OneMoreLink(via: seq<string>, a: string, b: string, c: string)
    requires LinkedInside(via, a, b) && (OneLessInside(b, c) || OneLessInside(c, b))
    ensures LinkedInside(via + [c], a, c)
  {
    hide OneLessInside;
  }

  lemma {:induction false} LinkedCarriesOn(via: seq<string>, a: string, b: string, c: char)
    requires LinkedInside(via, a, b)
    ensures LinkedInside(seq(|via|, i requires 0 <= i < |via| => via[i] + [c]), a + [c], b + [c])
  {
    hide OneLessInside;
    forall x, y | OneLessInside(x, y) ensures OneLessInside(x + [c], y + [c]) { CarriesOn(x, y, c); }
  }

  lemma {:induction false} LinkedInsideIsLinked(via: seq<string>, a: string, b: string)
    requires LinkedInside(via, a, b)
    ensures SameButBlanks(a, b)
  {
    assert forall x, y | OneLessInside(x, y) :: OneLess(x, y);
    hide OneLessInside, OneLess;
    assert Linked(via, a, b);
  }

  lemma {:induction false} RunShortens(p: string, x: char, y: char, z: char)
    requires IsBlank(x) && IsBlank(y) && IsBlank(z)
    ensures OneLessInside(p + [x] + [y], p + [z])
  {
    assert p + [x] + [y] == p + [x, y] + [] && p + [z] == p + [z] + [];
    assert ShorterRun(p + [x] + [y], p + [z], p, [], x, y, z);
  }

  /** One character read: at most two respellings. */
  lemma {:induction false} FeedLinks(st: Scan, c: char) returns (via: seq<string>)
    requires st.pending ==> st.out != []
    ensures LinkedInside(via, Written(st) + [c], Written(Feed(st, c, true)))
  {
    var before, after := Written(st) + [c], Written(Feed(st, c, true));
    via := [before];
    assert IsBlank(' ');
    if IsBlank(c) {
      if st.pending {
        RunShortens(st.out, ' ', c, ' ');
        via := [before, after];
      } else if st.out == [] {
        assert before == [c] && after == [];
        via := [before, after];
      } else {
        RunShortens(st.out, c, c, c);
        RunShortens(st.out, c, c, ' ');
        via := [before, st.out + [c] + [c], after];
      }
    } else if st.pending && c == '*' {
      assert before == st.out + [' ', '*'] + [] && after == st.out + ['*'] + [];
      assert NoBlankBeforeStar(before, after, st.out, [], ' ');
      via := [before, after];
    } else {
      assert after == before;
    }
  }

  /** That differs from what the scan has read only in blanks. */
  lemma {:induction false} ReadLinks(s: string) returns (via: seq<string>)
    ensures LinkedInside(via, s, Written(Squeezed(s, true)))
  {
    if s == [] {
      via := [[]];
    } else {
      var n := |s| - 1;
      var before := ReadLinks(s[..n]);
      CleanEnds(s[..n], true);
      assert s == s[..n] + [s[n]];
      assert Squeezed(s, true) == Feed(Squeezed(s[..n], true), s[n], true);
      hide *;
      LinkedCarriesOn(before, s[..n], Written(Squeezed(s[..n], true)), s[n]);
      var carried := seq(|before|, i requires 0 <= i < |before| => before[i] + [s[n]]);
      var more := FeedLinks(Squeezed(s[..n], true), s[n]);
      via := LinksJoin(carried, more, s, Written(Squeezed(s[..n], true)) + [s[n]], Written(Squeezed(s, true)));
    }
  }

  lemma {:induction false} LinksJoin(x: seq<string>, y: seq<string>, a: string, b: string, c: string)
      returns (via: seq<string>)
    requires LinkedInside(x, a, b) && LinkedInside(y, b, c)
    ensures LinkedInside(via, a, c)
  {
    hide OneLessInside;
    via := x + y[1..];
    forall i | 0 < i < |via| ensures OneLessInside(via[i - 1], via[i]) || OneLessInside(via[i], via[i - 1]) {
      if i >= |x| {
        assert via[i] == y[i - |x| + 1];
        assert via[i - 1] == y[i - |x|];
      }
    }
  }

  /** A text and its normal form differ only in blanks. */
  lemma {:induction false} NormalIsTheSame(s: string)
    ensures SameButBlanks(s, Normal(s))
  {
    var via := ReadLinks(s);
    var st := Squeezed(s, true);
    LinkedInsideIsLinked(via, s, Written(st));
    Reflexive(st.out);
    if st.pending {
      assert IsBlank(Written(st)[|st.out|]) && Written(st)[..|st.out|] == st.out;
      OneStep(Written(st), st.out);
    }
    hide SameButBlanks;
    Chained(s, Written(st), st.out);
  }

  /** Two spellings are normalised alike if and only if they differ in nothing but run
      lengths of blanks, blanks before a star, and blanks at the ends. */
  lemma {:induction false} BlanksDoNotMatter(a: string, b: string)
    ensures Normal(a) == Normal(b) <==> SameButBlanks(a, b)
  {
    NormalIsTheSame(a);
    NormalIsTheSame(b);
    if via :| Linked(via, a, b) {
      LinkedAreAlike(via, a, b);
    }
    hide Normal, Linked;
    if Normal(a) == Normal(b) {
      Reversed(b, Normal(b));
      Chained(a, Normal(a), b);
    }
  }

  // ------------------------------------------------------------- declarations

  /** Last position of a blank or a star; -1 when there is none. */
  function LastSeparator(s: string): (k: int)
    ensures -1 <= k < |s|
    ensures k >= 0 ==> (s[k] == ' ' || s[k] == '*') && forall j | k < j < |s| :: s[j] != ' ' && s[j] != '*'
    ensures k == -1 ==> forall j | 0 <= j < |s| :: s[j] != ' ' && s[j] != '*'
  {
    if s == [] then -1
    else if s[|s| - 1] == ' ' || s[|s| - 1] == '*' then |s| - 1
    else LastSeparator(s[..|s| - 1])
  }

  function FindFirst(s: string, c: char): (k: int)
    ensures -1 <= k < |s|
    ensures k >= 0 ==> s[k] == c && forall j | 0 <= j < k :: s[j] != c
    ensures k == -1 ==> forall j | 0 <= j < |s| :: s[j] != c
  {
    if s == [] then -1
    else
      var k := FindFirst(s[..|s| - 1], c);
      if k >= 0 then k else if s[|s| - 1] == c then |s| - 1 else -1
  }

  function FindLast(s: string, c: char): (k: int)
    ensures -1 <= k < |s|
    ensures k >= 0 ==> s[k] == c && forall j | k < j < |s| :: s[j] != c
    ensures k == -1 ==> forall j | 0 <= j < |s| :: s[j] != c
  {
    if s == [] then -1 else if s[|s| - 1] == c then |s| - 1 else FindLast(s[..|s| - 1], c)
  }

  function TrimSemicolons(s: string): string {
    if s != [] && s[|s| - 1] == ';' then TrimSemicolons(s[..|s| - 1]) else s
  }

  /** Type and name of one parameter; `void`, and text without a separator, is none. */
  function SplitCParam(raw: string): Option<CHeader.RawParam> {
    var r := Trim(raw);
    if r == "void" || r == "" then None
    else
      var pos := LastSeparator(r);
      if pos < 0 then None
      else
        var name := Trim(r[pos + 1..]);
        if name == "" then None else Some(CHeader.RawParam(name, Normal(r[..pos + 1])))
  }

  function Kept(pieces: seq<string>): seq<CHeader.RawParam> {
    if pieces == [] then []
    else
      (match SplitCParam(Trim(pieces[0])) case None => [] case Some(p) => [p]) + Kept(pieces[1..])
  }

  /** Crash is the out-of-range slice when the parentheses are the wrong way round. */
  datatype Declaration = NoDeclaration | Crash | Declared(retType: string, name: string, params: seq<CHeader.RawParam>)

  function ParseCDeclaration(text: string): Declaration {
    var decl := Trim(TrimSemicolons(Trim(text)));
    var open, close := FindFirst(decl, '('), FindLast(decl, ')');
    if open < 0 || close < 0 then NoDeclaration
    else if close <= open then Crash
    else
      var before, inside := Trim(decl[..open]), Trim(decl[open + 1..close]);
      var pos := LastSeparator(before);
      if pos < 0 then NoDeclaration
      else Declared(Normal(before[..pos + 1]), Trim(before[pos + 1..]),
                    if inside == "" || inside == "void" then [] else Kept(Split(inside, ',')))
  }

  // --------------------------------------------------------------- round trip

  predicate Punctuation(c: char) {
    c == '(' || c == ')' || c == ',' || c == ';'
  }

  predicate IsName(n: string) {
    n != [] && forall c <- n :: !IsBlank(c) && c != '*' && !Punctuation(c)
  }

  /** Text in front of a name: anything that ends in a space or a star and is not blank
      altogether. */
  predicate IsTypeText(t: string) {
    && t != [] && (t[|t| - 1] == ' ' || t[|t| - 1] == '*')
    && (forall c <- t :: !Punctuation(c))
    && exists c <- t :: !IsBlank(c)
  }

  datatype Spelling = Spelling(typeText: string, name: string)

  predicate WellSpelled(d: Spelling) {
    IsTypeText(d.typeText) && IsName(d.name)
  }

  function SpellParam(d: Spelling): string {
    d.typeText + d.name
  }

  function SpellParams(ds: seq<Spelling>): string {
    if ds == [] then []
    else if |ds| == 1 then SpellParam(ds[0])
    else SpellParam(ds[0]) + [','] + SpellParams(ds[1..])
  }

  function SpellDeclaration(head: Spelling, ds: seq<Spelling>): string {
    SpellParam(head) + ['('] + SpellParams(ds) + [')'] + [';']
  }

  function Understood(ds: seq<Spelling>): seq<CHeader.RawParam> {
    seq(|ds|, i requires 0 <= i < |ds| => CHeader.RawParam(ds[i].name, Normal(ds[i].typeText)))
  }

  predicate AllBlank(s: string) {
    forall c <- s :: IsBlank(c)
  }

  predicate CleanText(s: string) {
    s != [] && !IsBlank(s[0]) && !IsBlank(s[|s| - 1])
  }

  lemma {:induction false} TrimIs(pre: string, mid: string)
    requires AllBlank(pre) && CleanText(mid)
    ensures Trim(pre + mid) == mid
  {
    if pre == [] {
      assert pre + mid == mid;
    } else {
      assert pre[0] in pre && (pre + mid)[0] == pre[0] && (pre + mid)[1..] == pre[1..] + mid;
      assert forall c <- pre[1..] :: c in pre;
      TrimIs(pre[1..], mid);
    }
  }

  /** Type text is some blanks and then text that starts with something. */
  lemma {:induction false} LeadingBlanks(t: string) returns (pre: string, body: string)
    requires IsTypeText(t)
    ensures t == pre + body && AllBlank(pre)
    ensures body != [] && IsTypeText(body) && !IsBlank(body[0]) && Normal(body) == Normal(t)
    decreases |t|
  {
    assert t != [] && AllBlank([]);
    hide *;
    if IsBlank(t[0]) {
      OneLeadingBlank(t);
      var more, rest := LeadingBlanks(t[1..]);
      BlankInFront(more, t[0]);
      PutBack(t, more, rest);
      pre, body := [t[0]] + more, rest;
    } else {
      pre, body := [], t;
      assert [] + t == t;
    }
  }

  lemma {:induction false} PutBack(t: string, more: string, rest: string)
    requires t != [] && t[1..] == more + rest
    ensures t == [t[0]] + more + rest
  {
    assert t == [t[0]] + t[1..];
  }

  lemma {:induction false} OneLeadingBlank(t: string)
    requires IsTypeText(t) && IsBlank(t[0])
    ensures IsTypeText(t[1..]) && Normal(t[1..]) == Normal(t)
  {
    hide Normal;
    var rest := t[1..];
    assert t == [t[0]] + rest;
    var c :| c in t && !IsBlank(c);
    assert c in rest;
    assert forall x <- rest :: x in t;
    assert rest[|rest| - 1] == t[|t| - 1];
    BlankInFrontIsAlike(t[0], rest);
  }

  lemma {:induction false} BlankInFront(pre: string, c: char)
    requires AllBlank(pre) && IsBlank(c)
    ensures AllBlank([c] + pre)
  {
  }

  lemma {:induction false} CutAtName(body: string, name: string)
    requires IsTypeText(body) && IsName(name) && !IsBlank(body[0])
    ensures CleanText(body + name)
    ensures LastSeparator(body + name) == |body| - 1
    ensures (body + name)[..|body|] == body && (body + name)[|body|..] == name && Trim(name) == name
  {
    var s := body + name;
    assert s[|s| - 1] in name && s[|body| - 1] == body[|body| - 1];
    assert forall j | |body| <= j < |s| :: s[j] in name;
    assert name[0] in name && name[|name| - 1] in name;
    TrimOfClean(name);
  }

  lemma {:induction false} ParamComesBack(d: Spelling)
    requires WellSpelled(d)
    ensures SplitCParam(Trim(SpellParam(d))) == Some(CHeader.RawParam(d.name, Normal(d.typeText)))
    ensures Trim(SpellParam(d)) != "void" && Trim(SpellParam(d)) != ""
  {
    var pre, body := LeadingBlanks(d.typeText);
    CutAtName(body, d.name);
    assert SpellParam(d) == pre + (body + d.name);
    TrimIs(pre, body + d.name);
    TrimOfClean(body + d.name);
    hide Normal, IsName, IsTypeText;
    var s := body + d.name;
    assert s[|body| - 1] == ' ' || s[|body| - 1] == '*';
  }

  lemma {:induction false} SpelledHasNo(d: Spelling, c: char)
    requires WellSpelled(d) && Punctuation(c)
    ensures c !in SpellParam(d)
  {
  }

  lemma {:induction false} ParamsHaveNoParens(ds: seq<Spelling>)
    requires forall d <- ds :: WellSpelled(d)
    ensures '(' !in SpellParams(ds) && ')' !in SpellParams(ds)
  {
    if ds != [] {
      SpelledHasNo(ds[0], '(');
      SpelledHasNo(ds[0], ')');
      hide WellSpelled, SpellParam;
      assert ds[0] in ds && forall d <- ds[1..] :: d in ds;
      ParamsHaveNoParens(ds[1..]);
    }
  }

  lemma {:induction false} PiecesAreParams(ds: seq<Spelling>)
    requires ds != [] && forall d <- ds :: WellSpelled(d)
    ensures Split(SpellParams(ds), ',') == seq(|ds|, i requires 0 <= i < |ds| => SpellParam(ds[i]))
  {
    assert ds[0] in ds;
    SpelledHasNo(ds[0], ',');
    hide WellSpelled, SpellParam;
    if |ds| == 1 {
      SplitAt(SpellParam(ds[0]), ',', []);
    } else {
      assert forall d <- ds[1..] :: d in ds;
      PiecesAreParams(ds[1..]);
      SplitAt(SpellParam(ds[0]), ',', SpellParams(ds[1..]));
    }
  }

  lemma {:induction false} KeptAreUnderstood(ds: seq<Spelling>)
    requires forall d <- ds :: WellSpelled(d)
    ensures Kept(seq(|ds|, i requires 0 <= i < |ds| => SpellParam(ds[i]))) == Understood(ds)
  {
    hide SplitCParam, SpellParam, WellSpelled, Normal, Trim;
    if ds != [] {
      assert ds[0] in ds && forall d <- ds[1..] :: d in ds;
      ParamComesBack(ds[0]);
      KeptAreUnderstood(ds[1..]);
      PiecesTail(ds);
    }
  }

  lemma {:induction false} PiecesTail(ds: seq<Spelling>)
    requires ds != []
    ensures var pieces := seq(|ds|, i requires 0 <= i < |ds| => SpellParam(ds[i]));
            pieces[0] == SpellParam(ds[0]) &&
            pieces[1..] == seq(|ds[1..]|, i requires 0 <= i < |ds[1..]| => SpellParam(ds[1..][i]))
    ensures Understood(ds) == [CHeader.RawParam(ds[0].name, Normal(ds[0].typeText))] + Understood(ds[1..])
  {
    hide SpellParam, Normal;
  }

  /** The first parameter without the blanks in front of it. */
  lemma {:induction false} StripFirst(ds: seq<Spelling>, pre: string, body: string) returns (ts: seq<Spelling>)
    requires ds != [] && ds[0].typeText == pre + body
    ensures |ts| == |ds| && ts[0] == Spelling(body, ds[0].name) && ts[1..] == ds[1..]
    ensures SpellParams(ds) == pre + SpellParams(ts) && SpellParam(ts[0]) <= SpellParams(ts)
  {
    ts := [Spelling(body, ds[0].name)] + ds[1..];
    assert ts[1..] == ds[1..];
    var own := SpellParam(ts[0]);
    assert SpellParam(ds[0]) == pre + own;
    if |ds| > 1 {
      var more := SpellParams(ds[1..]);
      assert (pre + own) + [','] + more == pre + (own + [','] + more);
    }
  }

  lemma {:induction false} SameUnderstanding(ds: seq<Spelling>, ts: seq<Spelling>)
    requires |ts| == |ds| > 0 && ts[0].name == ds[0].name && ts[1..] == ds[1..]
    requires Normal(ts[0].typeText) == Normal(ds[0].typeText)
    ensures Understood(ts) == Understood(ds)
  {
    hide Normal;
    forall i | 0 <= i < |ds| ensures Understood(ts)[i] == Understood(ds)[i] {
      assert i > 0 ==> ts[i] == ts[1..][i - 1] && ds[i] == ds[1..][i - 1];
    }
  }

  lemma {:induction false} HasASeparator(s: string, k: nat)
    requires k < |s| && (s[k] == ' ' || s[k] == '*')
    ensures s != "" && s != "void"
  {
  }

  /** Without the blanks in front of its first parameter, a list is trimmed. */
  lemma {:induction false} TrimmedParams(ds: seq<Spelling>) returns (ts: seq<Spelling>)
    requires ds != [] && forall d <- ds :: WellSpelled(d)
    ensures ts != [] && (forall d <- ts :: WellSpelled(d)) && Understood(ts) == Understood(ds)
    ensures Trim(SpellParams(ds)) == SpellParams(ts)
    ensures SpellParams(ts) != "" && SpellParams(ts) != "void"
  {
    hide SpellParams, Understood, Normal, Trim, Words;
    assert ds[0] in ds;
    var pre, body := LeadingBlanks(ds[0].typeText);
    ts := StripFirst(ds, pre, body);
    SameUnderstanding(ds, ts);
    forall d | d in ts ensures WellSpelled(d) {
      assert d == ts[0] || d in ts[1..];
      assert d in ts[1..] ==> d in ds;
    }
    ParamsEndClean(ts);
    TrimIs(pre, SpellParams(ts));
    assert SpellParams(ts)[|body| - 1] == SpellParam(ts[0])[|body| - 1] == body[|body| - 1];
    HasASeparator(SpellParams(ts), |body| - 1);
  }

  lemma {:induction false} ParamsEndClean(ds: seq<Spelling>)
    requires ds != [] && forall d <- ds :: WellSpelled(d)
    ensures var s := SpellParams(ds);
            s != [] && !IsBlank(s[|s| - 1]) && (ds[0].typeText != [] ==> s[0] == ds[0].typeText[0])
  {
    assert ds[0] in ds;
    var own := SpellParam(ds[0]);
    assert own[|own| - 1] in ds[0].name;
    if |ds| > 1 {
      assert forall d <- ds[1..] :: d in ds;
      ParamsEndClean(ds[1..]);
    }
  }

  lemma {:induction false} Bracketed(head: string, inside: string)
    requires '(' !in head && ')' !in inside
    ensures var core := head + ['('] + inside + [')'];
            && FindFirst(core, '(') == |head| && FindLast(core, ')') == |core| - 1
            && core[..|head|] == head && core[|head| + 1..|core| - 1] == inside
            && TrimSemicolons(core + [';']) == core
  {
    var core := head + ['('] + inside + [')'];
    assert core[|head|] == '(' && forall j | 0 <= j < |head| :: core[j] == head[j] && core[j] in head;
    assert core[|core| - 1] == ')';
    assert (core + [';'])[..|core|] == core;
  }

  lemma {:induction false} CutUp(text: string, body: string, name: string, inside: string)
    requires var front := body + name;
             var core := front + ['('] + inside + [')'];
             && Trim(TrimSemicolons(Trim(text))) == core
             && FindFirst(core, '(') == |front| && FindLast(core, ')') == |core| - 1
             && core[..|front|] == front && core[|front| + 1..|core| - 1] == inside
             && body != [] && Trim(front) == front && LastSeparator(front) == |body| - 1
             && front[..|body|] == body && front[|body|..] == name && Trim(name) == name
    ensures ParseCDeclaration(text) ==
            Declared(Normal(body), name,
                     if Trim(inside) == "" || Trim(inside) == "void" then [] else Kept(Split(Trim(inside), ',')))
  {
    hide Normal, Kept, Split, Trim, TrimSemicolons, FindFirst, FindLast, LastSeparator;
  }

  /** Print, then parse: any declaration whose names are names and whose types end in a
      space or a star comes back with its names and with its types in normal form. */
  lemma {:induction false} DeclarationComesBack(head: Spelling, ds: seq<Spelling>)
    requires WellSpelled(head) && forall d <- ds :: WellSpelled(d)
    ensures ParseCDeclaration(SpellDeclaration(head, ds)) == Declared(Normal(head.typeText), head.name, Understood(ds))
  {
    hide Normal, SpellParams, Kept, Split, Trim, TrimSemicolons, FindFirst, FindLast, LastSeparator, Understood,
         ParseCDeclaration;
    var pre, body := LeadingBlanks(head.typeText);
    CutAtName(body, head.name);
    SpelledHasNo(Spelling(body, head.name), '(');
    ParamsHaveNoParens(ds);
    var front, inside := body + head.name, SpellParams(ds);
    Bracketed(front, inside);
    var core := front + ['('] + inside + [')'];
    assert SpellDeclaration(head, ds) == pre + (core + [';']);
    TrimIs(pre, core + [';']);
    TrimOfClean(core);
    TrimOfClean(front);
    ParamsUnderstood(ds);
    CutUp(SpellDeclaration(head, ds), body, head.name, inside);
  }

  lemma {:induction false} ParamsUnderstood(ds: seq<Spelling>)
    requires forall d <- ds :: WellSpelled(d)
    ensures var inside := Trim(SpellParams(ds));
            (if inside == "" || inside == "void" then [] else Kept(Split(inside, ','))) == Understood(ds)
  {
    hide Kept, Split, WellSpelled, Understood;
    if ds == [] {
      NoParams();
    } else {
      var ts := TrimmedParams(ds);
      PiecesAreParams(ts);
      KeptAreUnderstood(ts);
    }
  }

  lemma {:induction false} NoParams()
    ensures Trim(SpellParams([])) == "" && Understood([]) == []
  {
  }
}
