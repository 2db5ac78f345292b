/** A whole C header: which lines are annotations, what they say, and which lines make
    up the declaration that follows each of them. */
module CHeaderFile {
  import opened Common
  import opened IndexText
  import opened CTypeText
  import CHeader
  import CDeclaration
  import Kernel = KernelTypes

  // --------------------------------------------------------------- annotations

  const NO_ANNOTATION: CHeader.Annotation := CHeader.Annotation(false, None, None, [], [])

  function WithoutSuffix(s: string, suffix: string): string
    requires HasSuffix(s, suffix)
  {
    s[..|s| - |suffix|]
  }

  /** Effect of one item of the list; unknown items are ignored. */
  function ApplyToken(ann: CHeader.Annotation, token: string): CHeader.Annotation {
    var t := Trim(token);
    if t == "variadic" then ann.(variadic := true)
    else if "out_len=" <= t then ann.(outLen := Some(Trim(t[8..])))
    else if "free=" <= t then ann.(freeFn := Some(Trim(t[5..])))
    else if HasSuffix(t, ": array") then ann.(arrayParams := ann.arrayParams + [Trim(WithoutSuffix(t, ": array"))])
    else if HasSuffix(t, ": mut_array")
      then ann.(mutArrayParams := ann.mutArrayParams + [Trim(WithoutSuffix(t, ": mut_array"))])
    else ann
  }

  function ApplyTokens(ann: CHeader.Annotation, tokens: seq<string>): CHeader.Annotation
    decreases |tokens|
  {
    if tokens == [] then ann else ApplyTokens(ApplyToken(ann, tokens[0]), tokens[1..])
  }

  function Annotated(body: string): CHeader.Annotation {
    if Trim(body) == "" then NO_ANNOTATION else ApplyTokens(NO_ANNOTATION, Split(Trim(body), ','))
  }

  method ParseAnnotation(body: string) returns (ann: CHeader.Annotation)
    ensures ann == Annotated(body)
  {
    ann := NO_ANNOTATION;
    var text := Trim(body);
    if text == "" {
      return;
    }
    var tokens := Split(text, ',');
    for i := 0 to |tokens|
      invariant ApplyTokens(ann, tokens[i..]) == ApplyTokens(NO_ANNOTATION, tokens)
    {
      hide ApplyToken;
      assert tokens[i..][0] == tokens[i] && tokens[i..][1..] == tokens[i + 1..];
      ann := ApplyToken(ann, tokens[i]);
    }
  }

  datatype Attr =
    | Variadic
    | OutLen(name: string)
    | Free(name: string)
    | ArrayOf(name: string)
    | MutArrayOf(name: string)

  predicate IsPlain(n: string) {
    IsName(n) && ':' !in n && '=' !in n
  }

  predicate PlainAttr(a: Attr) {
    a.Variadic? || IsPlain(a.name)
  }

  function SpellAttr(a: Attr): string {
    match a
    case Variadic => "variadic"
    case OutLen(n) => "out_len=" + n
    case Free(n) => "free=" + n
    case ArrayOf(n) => n + ": array"
    case MutArrayOf(n) => n + ": mut_array"
  }

  function SpellAttrs(attrs: seq<Attr>): string {
    if attrs == [] then []
    else if |attrs| == 1 then SpellAttr(attrs[0])
    else SpellAttr(attrs[0]) + [','] + [' '] + SpellAttrs(attrs[1..])
  }

  function AddAttr(ann: CHeader.Annotation, a: Attr): CHeader.Annotation {
    match a
    case Variadic => ann.(variadic := true)
    case OutLen(n) => ann.(outLen := Some(n))
    case Free(n) => ann.(freeFn := Some(n))
    case ArrayOf(n) => ann.(arrayParams := ann.arrayParams + [n])
    case MutArrayOf(n) => ann.(mutArrayParams := ann.mutArrayParams + [n])
  }

  function AddAttrs(ann: CHeader.Annotation, attrs: seq<Attr>): CHeader.Annotation
    decreases |attrs|
  {
    if attrs == [] then ann else AddAttrs(AddAttr(ann, attrs[0]), attrs[1..])
  }

  lemma {:induction false} NameIsClean(n: string)
    requires IsName(n)
    ensures CleanText(n) && Trim(n) == n && ',' !in n
  {
    assert n[0] in n && n[|n| - 1] in n;
    TrimOfClean(n);
  }

  lemma {:induction false} AttrIsClean(a: Attr)
    requires PlainAttr(a)
    ensures CleanText(SpellAttr(a)) && Trim(SpellAttr(a)) == SpellAttr(a) && ',' !in SpellAttr(a)
  {
    if !a.Variadic? {
      NameIsClean(a.name);
    }
    TrimOfClean(SpellAttr(a));
  }

  lemma {:induction false} NotAPrefix(p: string, t: string, k: nat)
    requires k < |p| && p[k] !in t
    ensures !(p <= t)
  {
  }

  /** A name followed by a kind is not taken for one of the keywords. */
  lemma {:induction false} NoKeyword(n: string, suffix: string)
    requires IsPlain(n) && '=' !in suffix && ':' in suffix
    ensures n + suffix != "variadic" && !("out_len=" <= n + suffix) && !("free=" <= n + suffix)
    ensures HasSuffix(n + suffix, suffix) && WithoutSuffix(n + suffix, suffix) == n
  {
    var t := n + suffix;
    assert '=' !in t && ':' in t && ':' !in "variadic";
    NotAPrefix("out_len=", t, 7);
    NotAPrefix("free=", t, 4);
    assert t[|n|..] == suffix && t[..|n|] == n;
  }

  lemma {:induction false} KeywordValue(n: string)
    requires IsPlain(n)
    ensures Trim(n) == n
    ensures "out_len=" <= "out_len=" + n && ("out_len=" + n)[8..] == n && "out_len=" + n != "variadic"
    ensures "free=" <= "free=" + n && ("free=" + n)[5..] == n && "free=" + n != "variadic" &&
            !("out_len=" <= "free=" + n)
  {
    NameIsClean(n);
    assert ("out_len=" + n)[0] == 'o' && ("free=" + n)[0] == 'f';
  }

  /** One spelled attribute has its own effect, with or without a blank in front. */
  lemma {:induction false} AttrComesBack(ann: CHeader.Annotation, a: Attr, blank: bool)
    requires PlainAttr(a)
    ensures ApplyToken(ann, (if blank then [' '] else []) + SpellAttr(a)) == AddAttr(ann, a)
  {
    hide Trim, HasSuffix, WithoutSuffix, IsPlain, IsName, CleanText;
    AttrIsClean(a);
    var t := SpellAttr(a);
    TrimIs(if blank then [' '] else [], t);
    if !a.Variadic? {
      KeywordValue(a.name);
    }
    if a.ArrayOf? {
      NoKeyword(a.name, ": array");
    }
    if a.MutArrayOf? {
      NoKeyword(a.name, ": mut_array");
      NotAnArray(a.name);
    }
  }

  lemma {:induction false} NotAnArray(n: string)
    ensures !HasSuffix(n + ": mut_array", ": array")
  {
    var t := n + ": mut_array";
    assert t[|t| - 7..][0] == 't';
  }

  function Tokens(attrs: seq<Attr>, blank: bool): seq<string> {
    if attrs == [] then []
    else [(if blank then [' '] else []) + SpellAttr(attrs[0])] + Tokens(attrs[1..], true)
  }

  lemma {:induction false} SplitOfAttrs(attrs: seq<Attr>, blank: bool)
    requires attrs != [] && forall a <- attrs :: PlainAttr(a)
    ensures Split((if blank then [' '] else []) + SpellAttrs(attrs), ',') == Tokens(attrs, blank)
  {
    hide SpellAttr, PlainAttr, CleanText, Trim;
    assert attrs[0] in attrs;
    AttrIsClean(attrs[0]);
    var own := (if blank then [' '] else []) + SpellAttr(attrs[0]);
    if |attrs| == 1 {
      SplitAt(own, ',', []);
      assert Tokens(attrs[1..], true) == [];
    } else {
      assert forall a <- attrs[1..] :: a in attrs;
      SplitOfAttrs(attrs[1..], true);
      var rest := [' '] + SpellAttrs(attrs[1..]);
      SplitAt(own, ',', rest);
      assert (if blank then [' '] else []) + SpellAttrs(attrs) == own + [','] + rest;
    }
  }

  lemma {:induction false} TokensComeBack(ann: CHeader.Annotation, attrs: seq<Attr>, blank: bool)
    requires forall a <- attrs :: PlainAttr(a)
    ensures ApplyTokens(ann, Tokens(attrs, blank)) == AddAttrs(ann, attrs)
    decreases |attrs|
  {
    hide SpellAttr, PlainAttr, ApplyToken, AddAttr;
    if attrs != [] {
      assert attrs[0] in attrs && forall a <- attrs[1..] :: a in attrs;
      AttrComesBack(ann, attrs[0], blank);
      TokensComeBack(AddAttr(ann, attrs[0]), attrs[1..], true);
      assert Tokens(attrs, blank)[1..] == Tokens(attrs[1..], true);
    }
  }

  lemma {:induction false} AttrsAreClean(attrs: seq<Attr>)
    requires attrs != [] && forall a <- attrs :: PlainAttr(a)
    ensures CleanText(SpellAttrs(attrs))
  {
    hide SpellAttr, PlainAttr;
    assert attrs[0] in attrs;
    AttrIsClean(attrs[0]);
    if |attrs| > 1 {
      assert forall a <- attrs[1..] :: a in attrs;
      AttrsAreClean(attrs[1..]);
    }
  }

  /** Print, then parse: a list of attributes takes effect item by item. */
  lemma {:induction false} AnnotationComesBack(attrs: seq<Attr>)
    requires forall a <- attrs :: PlainAttr(a)
    ensures Annotated(SpellAttrs(attrs)) == AddAttrs(NO_ANNOTATION, attrs)
  {
    hide SpellAttr, PlainAttr, ApplyToken, AddAttr;
    if attrs == [] {
      assert SpellAttrs(attrs) == "" && Trim("") == "";
    } else {
      AttrsAreClean(attrs);
      TrimOfClean(SpellAttrs(attrs));
      SplitOfAttrs(attrs, false);
      assert [] + SpellAttrs(attrs) == SpellAttrs(attrs);
      TokensComeBack(NO_ANNOTATION, attrs, false);
    }
  }

  // -------------------------------------------------------------------- lines

  const MARKER := "// @tomii_export"

  predicate IsAnnotation(line: string) {
    MARKER <= Trim(line)
  }

  /** Blank and comment lines inside a declaration; another annotation is a comment too. */
  predicate Ignored(line: string) {
    Trim(line) == "" || "//" <= Trim(line)
  }

  /** The text between the parentheses behind the marker, if any. */
  function AnnotationBody(line: string): string {
    var after := if IsAnnotation(line) then Trim(Trim(line)[|MARKER|..]) else "";
    if "(" <= after then
      var close := FindLast(after[1..], ')');
      if close >= 0 then after[1..][..close] else ""
    else ""
  }

  /** The declaration text gathered from the following lines, and how many they are. */
  datatype Gathered = Gathered(text: string, used: nat)

  function Gather(lines: seq<string>): (g: Gathered)
    ensures g.used <= |lines|
  {
    if lines == [] then Gathered("", 0)
    else
      var next := Trim(lines[0]);
      if Ignored(lines[0]) then
        var rest := Gather(lines[1..]);
        Gathered(rest.text, rest.used + 1)
      else if ';' in next then Gathered(next + [' '], 1)
      else
        var rest := Gather(lines[1..]);
        Gathered(next + [' '] + rest.text, rest.used + 1)
  }

  datatype Collected = Entries(es: seq<Kernel.ExportedFn>) | Panicked

  function Join(first: Collected, rest: Collected): Collected {
    if first.Panicked? || rest.Panicked? then Panicked else Entries(first.es + rest.es)
  }

  function EntryFor(text: string, ann: CHeader.Annotation): Collected {
    if Trim(text) == "" then Entries([])
    else
      match ParseCDeclaration(Trim(text))
      case NoDeclaration => Entries([])
      case Crash => Panicked
      case Declared(ret, name, params) => Entries([CDeclaration.EntryOf(ret, name, params, ann)])
  }

  function Collect(lines: seq<string>): Collected
    decreases |lines|
  {
    if lines == [] then Entries([])
    else if !IsAnnotation(lines[0]) then Collect(lines[1..])
    else
      var g := Gather(lines[1..]);
      Join(EntryFor(g.text, Annotated(AnnotationBody(lines[0]))), Collect(lines[1..][g.used..]))
  }

  /** `text` is what the lines from `start` up to i contribute. */
  ghost predicate GatheredUpTo(lines: seq<string>, start: nat, i: nat, text: string)
    requires start <= i <= |lines|
  {
    var rest := Gather(lines[i..]);
    Gather(lines[start..]) == Gathered(text + rest.text, i - start + rest.used)
  }

  lemma {:induction false} GatherStep(lines: seq<string>, start: nat, i: nat, text: string)
    requires start <= i < |lines| && GatheredUpTo(lines, start, i, text)
    ensures var next := Trim(lines[i]);
            if next == "" || "//" <= next then GatheredUpTo(lines, start, i + 1, text)
            else if ';' in next then Gather(lines[start..]) == Gathered(text + next + [' '], i + 1 - start)
            else GatheredUpTo(lines, start, i + 1, text + next + [' '])
  {
    hide Trim;
    assert lines[i..][0] == lines[i] && lines[i..][1..] == lines[i + 1..];
    var next, rest := Trim(lines[i]), Gather(lines[i + 1..]).text;
    assert text + (next + [' ']) == text + next + [' '];
    assert text + (next + [' '] + rest) == (text + next + [' ']) + rest;
  }

  method GatherDeclaration(lines: seq<string>, start: nat) returns (text: string, i: nat)
    requires start <= |lines|
    ensures start <= i <= |lines| && Gather(lines[start..]) == Gathered(text, i - start)
  {
    i := start;
    text := "";
    assert "" + Gather(lines[start..]).text == Gather(lines[start..]).text;
    assert GatheredUpTo(lines, start, start, "");
    hide Gather, Trim;
    while i < |lines|
      invariant start <= i <= |lines| && GatheredUpTo(lines, start, i, text)
    {
      GatherStep(lines, start, i, text);
      var next := Trim(lines[i]);
      i := i + 1;
      if next == "" || "//" <= next {
        continue;
      }
      text := text + next + [' '];
      if ';' in next {
        return;
      }
    }
    NothingLeft(lines, start, text);
  }

  lemma {:induction false} NothingLeft(lines: seq<string>, start: nat, text: string)
    requires start <= |lines| && GatheredUpTo(lines, start, |lines|, text)
    ensures Gather(lines[start..]) == Gathered(text, |lines| - start)
  {
    assert lines[|lines|..] == [] && text + "" == text;
  }

  method CollectCEntries(lines: seq<string>) returns (r: Collected)
    ensures r == Collect(lines)
  {
    hide Gather, EntryFor, Annotated, AnnotationBody, IsAnnotation;
    var entries: seq<Kernel.ExportedFn> := [];
    var i := 0;
    while i < |lines|
      invariant 0 <= i <= |lines|
      invariant Collect(lines) == Join(Entries(entries), Collect(lines[i..]))
    {
      assert lines[i..][0] == lines[i] && lines[i..][1..] == lines[i + 1..];
      if IsAnnotation(lines[i]) {
        var ann := ParseAnnotation(AnnotationBody(lines[i]));
        var text, next := GatherDeclaration(lines, i + 1);
        assert lines[i + 1..][next - (i + 1)..] == lines[next..];
        var entry := EntryFor(text, ann);
        if entry.Panicked? {
          return Panicked;
        }
        JoinAssociates(Entries(entries), entry, Collect(lines[next..]));
        entries := entries + entry.es;
        i := next;
      } else {
        i := i + 1;
      }
    }
    assert lines[i..] == [] && entries + [] == entries;
    r := Entries(entries);
  }

  lemma {:induction false} JoinAssociates(a: Collected, b: Collected, c: Collected)
    ensures Join(a, Join(b, c)) == Join(Join(a, b), c)
  {
    if a.Entries? && b.Entries? && c.Entries? {
      assert a.es + (b.es + c.es) == (a.es + b.es) + c.es;
    }
  }

  // --------------------------------------------------------------- round trip

  /** An annotated declaration as it may be laid out: unrelated lines, the annotation,
      and the declaration over several lines with blank and comment lines in between. */
  datatype Block = Block(before: seq<string>, annotation: string, lines: seq<string>)

  predicate WellLaidLines(lines: seq<string>) {
    && lines != [] && !Ignored(lines[|lines| - 1]) && ';' in Trim(lines[|lines| - 1])
    && forall k | 0 <= k < |lines| - 1 :: Ignored(lines[k]) || ';' !in Trim(lines[k])
  }

  predicate WellLaid(b: Block) {
    && (forall l <- b.before :: !IsAnnotation(l))
    && IsAnnotation(b.annotation) && WellLaidLines(b.lines)
  }

  /** The declaration's own text: its lines trimmed, each with a blank behind it. */
  function TextOf(lines: seq<string>): string {
    if lines == [] then []
    else (if Ignored(lines[0]) then [] else Trim(lines[0]) + [' ']) + TextOf(lines[1..])
  }

  function Layout(blocks: seq<Block>, trailing: seq<string>): seq<string> {
    if blocks == [] then trailing
    else blocks[0].before + [blocks[0].annotation] + blocks[0].lines + Layout(blocks[1..], trailing)
  }

  function EntriesOf(blocks: seq<Block>): Collected {
    if blocks == [] then Entries([])
    else
      Join(EntryFor(TextOf(blocks[0].lines), Annotated(AnnotationBody(blocks[0].annotation))), EntriesOf(blocks[1..]))
  }

  lemma {:induction false} GatherStops(lines: seq<string>, rest: seq<string>)
    requires WellLaidLines(lines)
    ensures Gather(lines + rest) == Gathered(TextOf(lines), |lines|)
  {
    hide Ignored;
    assert (lines + rest)[0] == lines[0] && (lines + rest)[1..] == lines[1..] + rest;
    if |lines| > 1 {
      var tail := lines[1..];
      assert tail[|tail| - 1] == lines[|lines| - 1];
      assert forall k | 0 <= k < |tail| - 1 :: tail[k] == lines[k + 1];
      GatherStops(tail, rest);
    } else {
      assert lines[1..] == [] && TextOf(lines[1..]) == [];
      assert Trim(lines[0]) + [' '] + [] == Trim(lines[0]) + [' '];
    }
  }

  lemma {:induction false} NoiseIsSkipped(noise: seq<string>, rest: seq<string>)
    requires forall l <- noise :: !IsAnnotation(l)
    ensures Collect(noise + rest) == Collect(rest)
  {
    hide IsAnnotation;
    if noise == [] {
      assert noise + rest == rest;
    } else {
      assert noise[0] in noise && forall l <- noise[1..] :: l in noise;
      assert (noise + rest)[0] == noise[0] && (noise + rest)[1..] == noise[1..] + rest;
      NoiseIsSkipped(noise[1..], rest);
    }
  }

  /** However the declarations of a header are laid out, the entries are exactly those
      of the annotated declarations, in order. */
  lemma {:induction false} LayoutDoesNotMatter(blocks: seq<Block>, trailing: seq<string>)
    requires (forall b <- blocks :: WellLaid(b)) && forall l <- trailing :: !IsAnnotation(l)
    ensures Collect(Layout(blocks, trailing)) == EntriesOf(blocks)
  {
    if blocks == [] {
      NoiseIsSkipped(trailing, []);
      assert trailing + [] == trailing;
    } else {
      var b, rest := blocks[0], Layout(blocks[1..], trailing);
      assert b in blocks && forall x <- blocks[1..] :: x in blocks;
      LayoutDoesNotMatter(blocks[1..], trailing);
      BlockIsRead(b, rest);
      hide WellLaid, IsAnnotation, EntryFor, Annotated, AnnotationBody, Collect, TextOf;
    }
  }

  lemma {:induction false} BlockIsRead(b: Block, rest: seq<string>)
    requires WellLaid(b)
    ensures Collect(b.before + [b.annotation] + b.lines + rest) ==
            Join(EntryFor(TextOf(b.lines), Annotated(AnnotationBody(b.annotation))), Collect(rest))
  {
    var own := [b.annotation] + (b.lines + rest);
    assert b.before + [b.annotation] + b.lines + rest == b.before + own;
    NoiseIsSkipped(b.before, own);
    assert own[0] == b.annotation && own[1..] == b.lines + rest;
    GatherStops(b.lines, rest);
    assert (b.lines + rest)[|b.lines|..] == rest;
    hide IsAnnotation, EntryFor, Annotated, AnnotationBody, TextOf, Gather;
  }

  lemma {:induction false} SpelledIsTrimmed(head: Spelling, ds: seq<Spelling>) returns (clean: Spelling)
    requires WellSpelled(head) && forall d <- ds :: WellSpelled(d)
    ensures WellSpelled(clean) && clean.name == head.name && Normal(clean.typeText) == Normal(head.typeText)
    ensures Trim(SpellDeclaration(head, ds)) == SpellDeclaration(clean, ds) && CleanText(SpellDeclaration(clean, ds))
  {
    hide Normal, SpellParams;
    var pre, body := LeadingBlanks(head.typeText);
    clean := Spelling(body, head.name);
    var text := SpellDeclaration(clean, ds);
    assert text[0] == body[0] && text[|text| - 1] == ';';
    assert SpellDeclaration(head, ds) == pre + text;
    TrimIs(pre, text);
  }

  /** From a header line to its entry: an annotated declaration on one line yields the
      entry of its own names and normalised types. */
  lemma {:induction false} LineYieldsItsEntry(head: Spelling, ds: seq<Spelling>, ann: CHeader.Annotation)
    requires WellSpelled(head) && forall d <- ds :: WellSpelled(d)
    requires !Ignored(SpellDeclaration(head, ds))
    ensures EntryFor(TextOf([SpellDeclaration(head, ds)]), ann) ==
            Entries([CDeclaration.EntryOf(Normal(head.typeText), head.name, Understood(ds), ann)])
  {
    var line := SpellDeclaration(head, ds);
    var clean := SpelledIsTrimmed(head, ds);
    var text := SpellDeclaration(clean, ds);
    DeclarationComesBack(clean, ds);
    assert TextOf([line]) == text + [' '] by { assert [line][1..] == []; }
    TrimOfClean(text);
    TrailingBlank(text);
    hide Normal, SpellDeclaration, ParseCDeclaration, Understood, CleanText, TextOf, CDeclaration.EntryOf;
  }

  lemma {:induction false} TrailingBlank(s: string)
    requires CleanText(s)
    ensures Trim(s + [' ']) == Trim(s)
  {
    assert (s + [' '])[..|s|] == s;
  }
}
