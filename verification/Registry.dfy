/** The two ways the runtime finds a kernel: the static match tables the converter
    writes, and the export table a self-contained plugin publishes and the runtime
    loads. */
module Registry {
  import opened Common
  import opened KernelTypes
  import opened RustRenderers

  function WrapFnName(cmName: string): string {
    cmName + "_wrap"
  }

  function UncheckedName(e: ExportedFn): Option<string> {
    if EntryArgspec(e).Some? then Some(WrapFnName(e.cmName) + "_unchecked") else None
  }

  function BulkName(e: ExportedFn): Option<string> {
    if e.hasBulkCm then Some(e.registryKey + "_bulk_cm_wrap") else None
  }

  // ----------------------------------------------------------- static tables

  type Table<T> = seq<(string, T)>

  /** How a lookup ends. */
  datatype Answer<+T> = Found(value: T) | Absent | Panics

  function AnswerOf<T>(o: Option<T>): Answer<T> {
    if o.Some? then Found(o.value) else Absent
  }

  /** A generated `match`: its arms, and what its `_` arm does. */
  datatype Match<T> = Match(arms: Table<T>, otherwise: Answer<T>)

  datatype StaticTables = StaticTables(
    funcs: Match<string>,
    bulks: Match<string>,
    uncheckeds: Match<string>,
    argspecs: Match<seq<string>>,
    rets: Match<string>)

  /** A Rust `match`: the first arm wins. */
  function FirstMatch<T>(t: Table<T>, key: string): Option<T> {
    if t == [] then None
    else if t[0].0 == key then Some(t[0].1)
    else FirstMatch(t[1..], key)
  }

  function Ask<T>(m: Match<T>, key: string): Answer<T> {
    var arm := FirstMatch(m.arms, key);
    if arm.Some? then Found(arm.value) else m.otherwise
  }

  /** One arm per entry for which `column` has a value, in entry order. */
  function Arms<T>(entries: seq<ExportedFn>, column: ExportedFn -> Option<T>): Table<T> {
    if entries == [] then []
    else
      var before := Arms(entries[..|entries| - 1], column);
      var e := entries[|entries| - 1];
      if column(e).Some? then before + [(e.registryKey, column(e).value)] else before
  }

  const WRAP_COLUMN: ExportedFn -> Option<string> := (e: ExportedFn) => Some(WrapFnName(e.cmName))
  const BULK_COLUMN: ExportedFn -> Option<string> := (e: ExportedFn) => if e.lang.Rust? then BulkName(e) else None
  const UNCHECKED_COLUMN: ExportedFn -> Option<string> := (e: ExportedFn) => UncheckedName(e)
  const ARGSPEC_COLUMN: ExportedFn -> Option<seq<string>> := (e: ExportedFn) => EntryArgspec(e)
  const RET_COLUMN: ExportedFn -> Option<string> := (e: ExportedFn) => e.retVariantHint

  method RenderColumn<T>(entries: seq<ExportedFn>, column: ExportedFn -> Option<T>) returns (arms: Table<T>)
    ensures arms == Arms(entries, column)
  {
    arms := [];
    for i := 0 to |entries|
      invariant arms == Arms(entries[..i], column)
    {
      assert entries[..i + 1][..i] == entries[..i];
      if column(entries[i]).Some? {
        arms := arms + [(entries[i].registryKey, column(entries[i]).value)];
      }
    }
    assert entries[..|entries|] == entries;
  }

  /** `get_func` gives up on an unknown name; the other four answer None. */
  function Tables(entries: seq<ExportedFn>): StaticTables {
    StaticTables(Match(Arms(entries, WRAP_COLUMN), Panics), Match(Arms(entries, BULK_COLUMN), Absent),
                 Match(Arms(entries, UNCHECKED_COLUMN), Absent), Match(Arms(entries, ARGSPEC_COLUMN), Absent),
                 Match(Arms(entries, RET_COLUMN), Absent))
  }

  method RenderRegistry(entries: seq<ExportedFn>) returns (t: StaticTables)
    ensures t == Tables(entries)
  {
    var funcs := RenderColumn(entries, WRAP_COLUMN);
    var bulks := RenderColumn(entries, BULK_COLUMN);
    var uncheckeds := RenderColumn(entries, UNCHECKED_COLUMN);
    var argspecs := RenderColumn(entries, ARGSPEC_COLUMN);
    var rets := RenderColumn(entries, RET_COLUMN);
    t := StaticTables(Match(funcs, Panics), Match(bulks, Absent), Match(uncheckeds, Absent), Match(argspecs, Absent),
                      Match(rets, Absent));
  }

  predicate DistinctKeys(entries: seq<ExportedFn>) {
    forall i, j | 0 <= i < j < |entries| :: entries[i].registryKey != entries[j].registryKey
  }

  lemma {:induction false} FirstMatchAppend<T>(a: Table<T>, b: Table<T>, key: string)
    ensures FirstMatch(a + b, key) == if FirstMatch(a, key).Some? then FirstMatch(a, key) else FirstMatch(b, key)
  {
    if a == [] {
      assert a + b == b;
    } else {
      assert (a + b)[0] == a[0] && (a + b)[1..] == a[1..] + b;
      FirstMatchAppend(a[1..], b, key);
    }
  }

  lemma {:induction false} ArmOf<T>(entries: seq<ExportedFn>, column: ExportedFn -> Option<T>, key: string)
    requires DistinctKeys(entries)
    ensures forall e <- entries | e.registryKey == key :: FirstMatch(Arms(entries, column), key) == column(e)
    ensures (forall e <- entries :: e.registryKey != key) ==> FirstMatch(Arms(entries, column), key) == None
  {
    if entries != [] {
      var n := |entries| - 1;
      var before, last := entries[..n], entries[n];
      ArmOf(before, column, key);
      if column(last).Some? {
        FirstMatchAppend(Arms(before, column), [(last.registryKey, column(last).value)], key);
      }
      assert forall e <- entries :: e == last || e in before;
      assert forall e <- before :: e in entries && e.registryKey != last.registryKey;
    }
  }

  /** With distinct keys a table answers an entry's key with that entry's own cell; its
      `_` arm answers for entries without one and for every other key. */
  lemma {:induction false} ColumnAnswers<T>(entries: seq<ExportedFn>, column: ExportedFn -> Option<T>,
          otherwise: Answer<T>, key: string)
    requires DistinctKeys(entries)
    ensures var answer := Ask(Match(Arms(entries, column), otherwise), key);
            && (forall e <- entries | e.registryKey == key ::
                  answer == if column(e).Some? then Found(column(e).value) else otherwise)
            && ((forall e <- entries :: e.registryKey != key) ==> answer == otherwise)
  {
    ArmOf(entries, column, key);
    hide Arms, FirstMatch;
  }

  // ------------------------------------------------------------ export table

  /** A (pointer, length) pair: null, or some readable elements (possibly none). */
  datatype RawSlice<+T> = Null | Elements(items: seq<T>)

  datatype ExportEntry = ExportEntry(
    name: RawSlice<char>,
    wrap: string,
    unchecked: Option<string>,
    bulk: Option<string>,
    argspec: RawSlice<RawSlice<char>>,
    retVariant: RawSlice<char>)

  datatype ExportTable = ExportTable(abiVersion: nat, entries: RawSlice<ExportEntry>)

  const ABI_VERSION: nat := 1

  function SanitizeChar(c: char): char {
    if IsWordChar(c) then c else '_'
  }

  function SanitizeIdent(s: string): string {
    seq(|s|, i requires 0 <= i < |s| => SanitizeChar(s[i]))
  }

  function RawWords(words: seq<string>): seq<RawSlice<char>> {
    seq(|words|, i requires 0 <= i < |words| => Elements(words[i]))
  }

  type Bindings = map<string, seq<RawSlice<char>>>

  /** The `let argspec_{ident}` lines: a later one shadows an earlier one. */
  function ArgspecBindings(entries: seq<ExportedFn>): Bindings {
    if entries == [] then map[]
    else
      var before := ArgspecBindings(entries[..|entries| - 1]);
      var e := entries[|entries| - 1];
      if EntryArgspec(e).Some? then before[SanitizeIdent(e.registryKey) := RawWords(EntryArgspec(e).value)] else before
  }

  function ExportRow(e: ExportedFn, bindings: Bindings): ExportEntry {
    var ident := SanitizeIdent(e.registryKey);
    ExportEntry(
      Elements(e.registryKey), WrapFnName(e.cmName), UncheckedName(e), BulkName(e),
      if EntryArgspec(e).Some? && ident in bindings then Elements(bindings[ident]) else Null,
      if e.retVariantHint.Some? then Elements(e.retVariantHint.value) else Null)
  }

  /** What `__tomii_exports` publishes. */
  function ExportRows(entries: seq<ExportedFn>): seq<ExportEntry> {
    seq(|entries|, i requires 0 <= i < |entries| => ExportRow(entries[i], ArgspecBindings(entries)))
  }

  lemma {:induction false} EveryArgspecIsBound(entries: seq<ExportedFn>)
    ensures forall e <- entries | EntryArgspec(e).Some? :: SanitizeIdent(e.registryKey) in ArgspecBindings(entries)
  {
    if entries != [] {
      EveryArgspecIsBound(entries[..|entries| - 1]);
      assert forall e <- entries :: e == entries[|entries| - 1] || e in entries[..|entries| - 1];
    }
  }

  /** C entries are skipped. */
  function RustEntries(entries: seq<ExportedFn>): seq<ExportedFn> {
    if entries == [] then []
    else RustEntries(entries[..|entries| - 1]) + if entries[|entries| - 1].lang.Rust? then [entries[|entries| - 1]]
      else []
  }

  lemma {:induction false} RustEntriesAre(entries: seq<ExportedFn>)
    ensures forall e :: e in RustEntries(entries) <==> e in entries && e.lang.Rust?
    ensures DistinctKeys(entries) ==> DistinctKeys(RustEntries(entries))
  {
    if entries != [] {
      var n := |entries| - 1;
      var before, last := entries[..n], entries[n];
      RustEntriesAre(before);
      var kept := RustEntries(before);
      assert RustEntries(entries) == kept + if last.lang.Rust? then [last] else [];
      hide RustEntries;
      assert forall e :: e in entries <==> e in before || e == last;
      if DistinctKeys(entries) {
        forall i | 0 <= i < |kept| ensures kept[i].registryKey != last.registryKey {
          assert kept[i] in kept && kept[i] in before;
        }
      }
    }
  }

  /** The table `__tomii_exports` publishes. */
  method RenderSelfContained(all: seq<ExportedFn>) returns (table: ExportTable)
    ensures table == ExportTable(ABI_VERSION, Elements(ExportRows(RustEntries(all))))
  {
    var entries: seq<ExportedFn> := [];
    for i := 0 to |all|
      invariant entries == RustEntries(all[..i])
    {
      assert all[..i + 1][..i] == all[..i];
      if all[i].lang.Rust? {
        entries := entries + [all[i]];
      }
    }
    assert all[..|all|] == all;
    table := PublishRows(entries);
  }

  method PublishRows(entries: seq<ExportedFn>) returns (table: ExportTable)
    ensures table == ExportTable(ABI_VERSION, Elements(ExportRows(entries)))
  {
    var bindings: Bindings := map[];
    for i := 0 to |entries|
      invariant bindings == ArgspecBindings(entries[..i])
    {
      assert entries[..i + 1][..i] == entries[..i];
      if EntryArgspec(entries[i]).Some? {
        bindings := bindings[SanitizeIdent(entries[i].registryKey) := RawWords(EntryArgspec(entries[i]).value)];
      }
    }
    assert entries[..|entries|] == entries;
    var rows: seq<ExportEntry> := [];
    for i := 0 to |entries|
      invariant rows == ExportRows(entries)[..i]
    {
      rows := rows + [ExportRow(entries[i], bindings)];
    }
    assert rows == ExportRows(entries);
    table := ExportTable(ABI_VERSION, Elements(rows));
  }

  // ---------------------------------------------------------------- loading

  datatype Kernel = Kernel(
    wrap: string,
    unchecked: Option<string>,
    bulk: Option<string>,
    argspec: Option<seq<string>>,
    retVariant: Option<string>)

  datatype LoadError = AbiMismatch(found: nat, expected: nat) | NullString
  datatype Loaded<+T> = Ok(value: T) | Err(error: LoadError)

  function ReadWords(specs: seq<RawSlice<char>>): Option<seq<string>> {
    if specs == [] then Some([])
    else if specs[0].Null? then None
    else
      match ReadWords(specs[1..])
      case None => None
      case Some(rest) => Some([specs[0].items] + rest)
  }

  function ReadEntry(e: ExportEntry): Loaded<(string, Kernel)> {
    if e.name.Null? then Err(NullString)
    else if e.argspec.Elements? && ReadWords(e.argspec.items).None? then Err(NullString)
    else Ok((e.name.items, Kernel(
      e.wrap, e.unchecked, e.bulk,
      if e.argspec.Null? then None else ReadWords(e.argspec.items),
      if e.retVariant.Null? then None else Some(e.retVariant.items))))
  }

  /** Reads the descriptors in order; a later descriptor replaces an earlier one of
      the same name, and any unreadable one rejects the plugin. */
  method LoadTable(table: ExportTable, expectedVersion: nat) returns (r: Loaded<map<string, Kernel>>)
    ensures table.abiVersion != expectedVersion ==> r == Err(AbiMismatch(table.abiVersion, expectedVersion))
    ensures table.abiVersion == expectedVersion ==>
              (r.Ok? <==> forall e <- Descriptors(table) :: ReadEntry(e).Ok?)
    ensures r.Ok? ==> LoadedFrom(r.value, Descriptors(table))
  {
    if table.abiVersion != expectedVersion {
      return Err(AbiMismatch(table.abiVersion, expectedVersion));
    }
    var entries := if table.entries.Null? then [] else table.entries.items;
    var registry: map<string, Kernel> := map[];
    for i := 0 to |entries|
      invariant forall e <- entries[..i] :: ReadEntry(e).Ok?
      invariant LoadedFrom(registry, entries[..i])
    {
      assert entries[..i + 1][..i] == entries[..i];
      var entry := ReadEntry(entries[i]);
      if entry.Err? {
        assert entries[i] in Descriptors(table);
        return Err(entry.error);
      }
      registry := registry[entry.value.0 := entry.value.1];
    }
    assert entries[..|entries|] == entries;
    r := Ok(registry);
  }

  ghost predicate LoadedFrom(registry: map<string, Kernel>, entries: seq<ExportEntry>) {
    forall key ::
      && (key in registry <==> LastNamed(entries, key).Some?)
      && (key in registry ==> registry[key] == LastNamed(entries, key).value)
  }

  function Descriptors(table: ExportTable): seq<ExportEntry> {
    if table.entries.Null? then [] else table.entries.items
  }

  /** The last readable descriptor of a name. */
  function LastNamed(entries: seq<ExportEntry>, key: string): Option<Kernel> {
    if entries == [] then None
    else
      var last := ReadEntry(entries[|entries| - 1]);
      if last.Ok? && last.value.0 == key then Some(last.value.1)
      else LastNamed(entries[..|entries| - 1], key)
  }

  /** The dynamic lookups: absent keys answer nothing. */
  function Lookup<T>(registry: map<string, Kernel>, key: string, field: Kernel -> Option<T>): Answer<T> {
    if key in registry then AnswerOf(field(registry[key])) else Absent
  }

  const WRAP_FIELD: Kernel -> Option<string> := (k: Kernel) => Some(k.wrap)
  const UNCHECKED_FIELD: Kernel -> Option<string> := (k: Kernel) => k.unchecked
  const BULK_FIELD: Kernel -> Option<string> := (k: Kernel) => k.bulk
  const ARGSPEC_FIELD: Kernel -> Option<seq<string>> := (k: Kernel) => k.argspec
  const RET_FIELD: Kernel -> Option<string> := (k: Kernel) => k.retVariant

  // -------------------------------------------------------------- agreement

  /** Keys that sanitize to the same identifier must carry the same argspec: the
      generated bindings of such keys shadow one another. */
  ghost predicate ArgspecsSurvive(entries: seq<ExportedFn>) {
    forall i, j | 0 <= i < j < |entries| &&
      SanitizeIdent(entries[i].registryKey) == SanitizeIdent(entries[j].registryKey) &&
      EntryArgspec(entries[i]).Some? && EntryArgspec(entries[j]).Some? ::
      EntryArgspec(entries[i]) == EntryArgspec(entries[j])
  }

  predicate AsciiIdent(s: string) {
    forall c <- s :: IsWordChar(c)
  }

  lemma {:induction false} AsciiKeysSurvive(entries: seq<ExportedFn>)
    requires DistinctKeys(entries) && forall e <- entries :: AsciiIdent(e.registryKey)
    ensures ArgspecsSurvive(entries)
  {
    forall i | 0 <= i < |entries| ensures SanitizeIdent(entries[i].registryKey) == entries[i].registryKey {
      assert entries[i] in entries;
    }
  }

  lemma {:induction false} ReadRawWords(words: seq<string>)
    ensures ReadWords(RawWords(words)) == Some(words)
  {
    if words != [] {
      ReadRawWords(words[1..]);
      assert RawWords(words)[1..] == RawWords(words[1..]);
      assert [words[0]] + words[1..] == words;
    }
  }

  /** What one entry becomes after being exported and read back. */
  function ImportedKernel(e: ExportedFn, argspec: Option<seq<string>>): Kernel {
    Kernel(WrapFnName(e.cmName), UncheckedName(e), BulkName(e), argspec, e.retVariantHint)
  }

  lemma {:induction false} BindingIsTheLastOne(entries: seq<ExportedFn>, ident: string)
    requires ident in ArgspecBindings(entries)
    ensures exists j :: && 0 <= j < |entries| && EntryArgspec(entries[j]).Some?
                        && SanitizeIdent(entries[j].registryKey) == ident
                        && ArgspecBindings(entries)[ident] == RawWords(EntryArgspec(entries[j]).value)
                        && forall k | j < k < |entries| ::
                             SanitizeIdent(entries[k].registryKey) == ident ==> EntryArgspec(entries[k]).None?
  {
    var n := |entries| - 1;
    var last := entries[n];
    if EntryArgspec(last).Some? && SanitizeIdent(last.registryKey) == ident {
      assert entries[n] == last;
    } else {
      BindingIsTheLastOne(entries[..n], ident);
      var j :| && 0 <= j < n && EntryArgspec(entries[..n][j]).Some?
               && SanitizeIdent(entries[..n][j].registryKey) == ident
               && ArgspecBindings(entries[..n])[ident] == RawWords(EntryArgspec(entries[..n][j]).value)
               && forall k | j < k < n ::
                    SanitizeIdent(entries[..n][k].registryKey) == ident ==> EntryArgspec(entries[..n][k]).None?;
      assert entries[j] == entries[..n][j];
      forall k | j < k < |entries| && SanitizeIdent(entries[k].registryKey) == ident
        ensures EntryArgspec(entries[k]).None?
      {
        if k < n { assert entries[k] == entries[..n][k]; }
      }
    }
  }

  /** The argspec an entry gets back from the loader: that of the last entry with
      the same sanitized key. */
  lemma {:induction false} ExportedArgspec(entries: seq<ExportedFn>, i: nat)
    requires i < |entries| && EntryArgspec(entries[i]).Some?
    ensures SanitizeIdent(entries[i].registryKey) in ArgspecBindings(entries)
    ensures exists j | i <= j < |entries| ::
              && SanitizeIdent(entries[j].registryKey) == SanitizeIdent(entries[i].registryKey)
              && EntryArgspec(entries[j]).Some?
              && ReadWords(ArgspecBindings(entries)[SanitizeIdent(entries[i].registryKey)]) == EntryArgspec(entries[j])
              && forall k | j < k < |entries| ::
                   SanitizeIdent(entries[k].registryKey) == SanitizeIdent(entries[i].registryKey) ==>
                     EntryArgspec(entries[k]).None?
  {
    EveryArgspecIsBound(entries);
    assert entries[i] in entries;
    var ident := SanitizeIdent(entries[i].registryKey);
    BindingIsTheLastOne(entries, ident);
    var j :| && 0 <= j < |entries| && EntryArgspec(entries[j]).Some?
             && SanitizeIdent(entries[j].registryKey) == ident
             && ArgspecBindings(entries)[ident] == RawWords(EntryArgspec(entries[j]).value)
             && forall k | j < k < |entries| ::
                  SanitizeIdent(entries[k].registryKey) == ident ==> EntryArgspec(entries[k]).None?;
    ReadRawWords(EntryArgspec(entries[j]).value);
  }

  lemma {:induction false} LastNamedIsIt(rows: seq<ExportEntry>, key: string, i: nat)
    requires i < |rows| && ReadEntry(rows[i]).Ok? && ReadEntry(rows[i]).value.0 == key
    requires forall k | i < k < |rows| :: !(ReadEntry(rows[k]).Ok? && ReadEntry(rows[k]).value.0 == key)
    ensures LastNamed(rows, key) == Some(ReadEntry(rows[i]).value.1)
  {
    if i < |rows| - 1 {
      assert forall k | 0 <= k < |rows| - 1 :: rows[..|rows| - 1][k] == rows[k];
      LastNamedIsIt(rows[..|rows| - 1], key, i);
    }
  }

  lemma {:induction false} NoneNamed(rows: seq<ExportEntry>, key: string)
    requires forall k | 0 <= k < |rows| :: !(ReadEntry(rows[k]).Ok? && ReadEntry(rows[k]).value.0 == key)
    ensures LastNamed(rows, key) == None
  {
    if rows != [] {
      assert forall k | 0 <= k < |rows| - 1 :: rows[..|rows| - 1][k] == rows[k];
      NoneNamed(rows[..|rows| - 1], key);
    }
  }

  /** Exporting a row and reading it back loses nothing but, possibly, its argspec. */
  lemma {:induction false} RowReadsBack(entries: seq<ExportedFn>, i: nat)
    requires i < |entries|
    ensures var r := ReadEntry(ExportRows(entries)[i]);
            && r.Ok? && r.value.0 == entries[i].registryKey
            && r.value.1 == ImportedKernel(entries[i], r.value.1.argspec)
            && (EntryArgspec(entries[i]).None? ==> r.value.1.argspec == None)
            && (EntryArgspec(entries[i]).Some? ==>
                  && SanitizeIdent(entries[i].registryKey) in ArgspecBindings(entries)
                  && r.value.1.argspec == ReadWords(ArgspecBindings(entries)[SanitizeIdent(entries[i].registryKey)])
                  && r.value.1.argspec.Some?)
  {
    if EntryArgspec(entries[i]).Some? {
      ExportedArgspec(entries, i);
    }
  }

  /** Row i, read back. */
  ghost function ReadBack(entries: seq<ExportedFn>, i: nat): Kernel
    requires i < |entries|
  {
    RowReadsBack(entries, i);
    ReadEntry(ExportRows(entries)[i]).value.1
  }

  lemma {:induction false} ReadBackArgspec(entries: seq<ExportedFn>, i: nat)
    requires i < |entries|
    ensures if EntryArgspec(entries[i]).None? then ReadBack(entries, i).argspec == None
            else && SanitizeIdent(entries[i].registryKey) in ArgspecBindings(entries)
                 && ReadBack(entries, i).argspec ==
                      ReadWords(ArgspecBindings(entries)[SanitizeIdent(entries[i].registryKey)])
  {
    hide EntryArgspec, SanitizeIdent, ReadWords, ArgspecBindings, ExportRows, ReadEntry, ImportedKernel;
    RowReadsBack(entries, i);
  }

  /** Every entry's argspec comes back exactly when colliding identifiers carry
      equal argspecs. */
  lemma {:induction false} ArgspecsComeBack(entries: seq<ExportedFn>)
    ensures (forall i | 0 <= i < |entries| :: ReadBack(entries, i).argspec == EntryArgspec(entries[i])) <==>
            ArgspecsSurvive(entries)
  {
    hide EntryArgspec, SanitizeIdent, ReadBack, ReadWords, ArgspecBindings;
    forall i | 0 <= i < |entries| { ReadBackArgspec(entries, i); }
    if ArgspecsSurvive(entries) {
      forall i | 0 <= i < |entries| && EntryArgspec(entries[i]).Some?
        ensures ReadBack(entries, i).argspec == EntryArgspec(entries[i])
      {
        ExportedArgspec(entries, i);
      }
    } else {
      var i, j :| 0 <= i < j < |entries| &&
        SanitizeIdent(entries[i].registryKey) == SanitizeIdent(entries[j].registryKey) &&
        EntryArgspec(entries[i]).Some? && EntryArgspec(entries[j]).Some? &&
        EntryArgspec(entries[i]) != EntryArgspec(entries[j]);
      assert ReadBack(entries, i).argspec == ReadBack(entries, j).argspec;
    }
  }

  /** A kernel with the given name and parameters that is linked and passes a CmTypes on. */
  function NamedEntry(key: string, params: seq<Param>): ExportedFn {
    ExportedFn(key + "_cm", key, params, ReturnsCmTypes, None, Rust, [], false)
  }

  /** Kernels named U+00E9, without parameters, and U+00FC, with `x: usize`: both keys become
      "_", and the first kernel gets the second one's argspec. */
  lemma {:induction false} CollidingKeys()
    ensures var a, b := NamedEntry("\U{e9}", []), NamedEntry("\U{fc}", [Param("x", Primitive(Usize))]);
            && DistinctKeys([a, b]) && RustEntry(a) && RustEntry(b)
            && EntryArgspec(a) == Some([]) && ReadBack([a, b], 0).argspec == Some(["Usize"])
  {
    var a, b := NamedEntry("\U{e9}", []), NamedEntry("\U{fc}", [Param("x", Primitive(Usize))]);
    var both := [a, b];
    assert a.registryKey[0] != b.registryKey[0];
    assert SanitizeIdent(a.registryKey) == "_" == SanitizeIdent(b.registryKey);
    assert EntryArgspec(a).Some? && EntryArgspec(a).value == [];
    assert EntryArgspec(b).Some? && EntryArgspec(b).value == [SpecWord(Primitive(Usize))];
    hide EntryArgspec, SanitizeIdent, ReadBack, ReadWords, ArgspecBindings;
    ReadBackArgspec(both, 0);
    ExportedArgspec(both, 0);
    assert both[1] == b;
  }

  ghost predicate SameAnswers<T(!new)>(m: Match<T>, registry: map<string, Kernel>, field: Kernel -> Option<T>) {
    forall key :: Lookup(registry, key, field) == Ask(m, key)
  }

  /** A dynamic lookup answers an exported entry's key with what became of that entry,
      and nothing else at all. */
  lemma {:induction false} DynamicAnswers<T>(entries: seq<ExportedFn>, registry: map<string, Kernel>,
          field: Kernel -> Option<T>, key: string)
    requires DistinctKeys(entries) && LoadedFrom(registry, ExportRows(entries))
    ensures forall i | 0 <= i < |entries| && entries[i].registryKey == key ::
              Lookup(registry, key, field) == AnswerOf(field(ReadBack(entries, i)))
    ensures (forall i | 0 <= i < |entries| :: entries[i].registryKey != key) ==> Lookup(registry, key, field) == Absent
  {
    var rows := ExportRows(entries);
    forall k | 0 <= k < |entries| { RowReadsBack(entries, k); }
    if i :| 0 <= i < |entries| && entries[i].registryKey == key {
      LastNamedIsIt(rows, key, i);
    } else {
      NoneNamed(rows, key);
    }
  }

  /** A lookup that C entries do not take part in: static and dynamic answers agree on
      every key exactly when every exported entry keeps its cell. */
  lemma {:induction false} ColumnAgrees<T(!new)>(all: seq<ExportedFn>, registry: map<string, Kernel>,
                              column: ExportedFn -> Option<T>, field: Kernel -> Option<T>)
    requires DistinctKeys(all) && LoadedFrom(registry, ExportRows(RustEntries(all)))
    requires forall e <- all | e.lang.C? :: column(e).None?
    ensures var entries := RustEntries(all);
            SameAnswers(Match(Arms(all, column), Absent), registry, field) <==>
            forall i | 0 <= i < |entries| :: field(ReadBack(entries, i)) == column(entries[i])
  {
    var entries, m := RustEntries(all), Match(Arms(all, column), Absent);
    RustEntriesAre(all);
    hide Arms, RustEntries, ReadBack, ExportRows, LoadedFrom, Lookup, Ask;
    forall i | 0 <= i < |entries|
      ensures Lookup(registry, entries[i].registryKey, field) == AnswerOf(field(ReadBack(entries, i)))
      ensures Ask(m, entries[i].registryKey) == AnswerOf(column(entries[i]))
    {
      DynamicAnswers(entries, registry, field, entries[i].registryKey);
      ColumnAnswers(all, column, Absent, entries[i].registryKey);
      assert entries[i] in entries;
    }
    forall key | forall i | 0 <= i < |entries| :: entries[i].registryKey != key
      ensures Lookup(registry, key, field) == Ask(m, key)
    {
      DynamicAnswers(entries, registry, field, key);
      ColumnAnswers(all, column, Absent, key);
      forall e | e in all && e.registryKey == key ensures column(e).None? {
        assert e.lang.Rust? ==> e in entries;
      }
    }
  }

  /** The wrapper lookups: the static one panics on an unknown name. */
  lemma {:induction false} WrapsAgreeExactly(all: seq<ExportedFn>, registry: map<string, Kernel>, key: string)
    requires DistinctKeys(all) && LoadedFrom(registry, ExportRows(RustEntries(all)))
    ensures Lookup(registry, key, WRAP_FIELD) == Ask(Tables(all).funcs, key) <==>
            exists e <- all :: e.lang.Rust? && e.registryKey == key
    ensures (forall e <- all :: e.registryKey != key) ==>
              Lookup(registry, key, WRAP_FIELD) == Absent && Ask(Tables(all).funcs, key) == Panics
  {
    var entries := RustEntries(all);
    RustEntriesAre(all);
    DynamicAnswers(entries, registry, WRAP_FIELD, key);
    ColumnAnswers(all, WRAP_COLUMN, Panics, key);
    hide Arms, RustEntries, ReadBack, ExportRows, LoadedFrom, Lookup, Ask, DistinctKeys;
    if i :| 0 <= i < |entries| && entries[i].registryKey == key {
      assert entries[i] in entries;
      ReadBackCells(entries, i);
    } else {
      assert forall i | 0 <= i < |entries| :: entries[i] in entries;
      if e :| e in all && e.registryKey == key {
        assert e.lang.Rust? ==> e in entries;
      }
    }
  }

  lemma {:induction false} ReadBackCells(entries: seq<ExportedFn>, i: nat)
    requires i < |entries|
    ensures var k := ReadBack(entries, i);
            && WRAP_FIELD(k) == WRAP_COLUMN(entries[i])
            && UNCHECKED_FIELD(k) == UNCHECKED_COLUMN(entries[i])
            && RET_FIELD(k) == RET_COLUMN(entries[i])
            && (entries[i].lang.Rust? ==> BULK_FIELD(k) == BULK_COLUMN(entries[i]))
            && ARGSPEC_FIELD(k) == k.argspec && ARGSPEC_COLUMN(entries[i]) == EntryArgspec(entries[i])
  {
    RowReadsBack(entries, i);
    hide ExportRows, EntryArgspec;
  }

  /** The lookups of a loaded export table against the static tables, over any entries
      with distinct keys: wrappers are found alike for the keys of Rust entries and for no
      other; the other lookups agree on every key, argspecs exactly when keys that
      sanitize alike carry equal ones. */
  lemma {:induction false} DynamicAnswersAsStatic(all: seq<ExportedFn>, registry: map<string, Kernel>)
    requires DistinctKeys(all) && forall e <- all | e.lang.C? :: e.retVariantHint.None?
    requires LoadedFrom(registry, ExportRows(RustEntries(all)))
    ensures forall key ::
              Lookup(registry, key, WRAP_FIELD) == Ask(Tables(all).funcs, key) <==>
              exists e <- all :: e.lang.Rust? && e.registryKey == key
    ensures SameAnswers(Tables(all).uncheckeds, registry, UNCHECKED_FIELD)
    ensures SameAnswers(Tables(all).bulks, registry, BULK_FIELD)
    ensures SameAnswers(Tables(all).rets, registry, RET_FIELD)
    ensures SameAnswers(Tables(all).argspecs, registry, ARGSPEC_FIELD) <==> ArgspecsSurvive(RustEntries(all))
  {
    hide *;
    TablesAre(all);
    RustEntriesAre(all);
    CellsComeBack(RustEntries(all));
    NoneForC(all);
    forall key
      ensures Lookup(registry, key, WRAP_FIELD) == Ask(Tables(all).funcs, key) <==>
              exists e <- all :: e.lang.Rust? && e.registryKey == key
    {
      WrapsAgreeExactly(all, registry, key);
    }
    ColumnAgrees(all, registry, UNCHECKED_COLUMN, UNCHECKED_FIELD);
    ColumnAgrees(all, registry, BULK_COLUMN, BULK_FIELD);
    ColumnAgrees(all, registry, RET_COLUMN, RET_FIELD);
    ColumnAgrees(all, registry, ARGSPEC_COLUMN, ARGSPEC_FIELD);
    ArgspecsComeBack(RustEntries(all));
  }

  lemma {:induction false} TablesAre(all: seq<ExportedFn>)
    ensures var t := Tables(all);
            && t.uncheckeds == Match(Arms(all, UNCHECKED_COLUMN), Absent) &&
                 t.bulks == Match(Arms(all, BULK_COLUMN), Absent)
            && t.rets == Match(Arms(all, RET_COLUMN), Absent) && t.argspecs == Match(Arms(all, ARGSPEC_COLUMN), Absent)
  {
    hide Arms;
  }

  lemma {:induction false} CellsComeBack(entries: seq<ExportedFn>)
    requires forall e <- entries :: e.lang.Rust?
    ensures forall i | 0 <= i < |entries| ::
              && UNCHECKED_FIELD(ReadBack(entries, i)) == UNCHECKED_COLUMN(entries[i])
              && RET_FIELD(ReadBack(entries, i)) == RET_COLUMN(entries[i])
              && BULK_FIELD(ReadBack(entries, i)) == BULK_COLUMN(entries[i])
              && ARGSPEC_FIELD(ReadBack(entries, i)) == ReadBack(entries, i).argspec
              && ARGSPEC_COLUMN(entries[i]) == EntryArgspec(entries[i])
  {
    hide ReadBack, EntryArgspec;
    forall i | 0 <= i < |entries|
      ensures var k := ReadBack(entries, i);
              && UNCHECKED_FIELD(k) == UNCHECKED_COLUMN(entries[i]) && RET_FIELD(k) == RET_COLUMN(entries[i])
              && BULK_FIELD(k) == BULK_COLUMN(entries[i])
              && ARGSPEC_FIELD(k) == k.argspec && ARGSPEC_COLUMN(entries[i]) == EntryArgspec(entries[i])
    {
      ReadBackCells(entries, i);
      assert entries[i] in entries;
    }
  }

  lemma {:induction false} NoneForC(all: seq<ExportedFn>)
    ensures forall e <- all | e.lang.C? ::
              UNCHECKED_COLUMN(e).None? && BULK_COLUMN(e).None? && ARGSPEC_COLUMN(e).None? &&
                RET_COLUMN(e) == e.retVariantHint
  {
  }

  /** The whole path: what a plugin publishes is accepted by a loader of the same
      ABI version, and then answers like the static tables. */
  method PublishAndLoad(all: seq<ExportedFn>) returns (registry: map<string, Kernel>)
    requires DistinctKeys(all) && forall e <- all | e.lang.C? :: e.retVariantHint.None?
    requires forall e <- all | e.lang.Rust? :: AsciiIdent(e.registryKey)
    ensures registry.Keys == set e <- all | e.lang.Rust? :: e.registryKey
    ensures forall key <- registry :: Lookup(registry, key, WRAP_FIELD) == Ask(Tables(all).funcs, key)
    ensures SameAnswers(Tables(all).uncheckeds, registry, UNCHECKED_FIELD)
    ensures SameAnswers(Tables(all).bulks, registry, BULK_FIELD)
    ensures SameAnswers(Tables(all).rets, registry, RET_FIELD)
    ensures SameAnswers(Tables(all).argspecs, registry, ARGSPEC_FIELD)
  {
    var table := RenderSelfContained(all);
    var loaded := LoadTable(table, ABI_VERSION);
    ghost var entries := RustEntries(all);
    forall i | 0 <= i < |entries| ensures ReadEntry(ExportRows(entries)[i]).Ok? {
      RowReadsBack(entries, i);
    }
    registry := loaded.value;
    RustEntriesAre(all);
    AsciiKeysSurvive(entries);
    DynamicAnswersAsStatic(all, registry);
    hide SameAnswers, RustEntries, DistinctKeys, ExportRows, Ask, LoadedFrom;
    forall key ensures key in registry <==> exists e <- all :: e.lang.Rust? && e.registryKey == key {
      DynamicAnswers(entries, registry, WRAP_FIELD, key);
      if i :| 0 <= i < |entries| && entries[i].registryKey == key {
        assert entries[i] in entries;
      } else if e :| e in all && e.lang.Rust? && e.registryKey == key {
        assert e in entries;
      }
    }
  }
}
