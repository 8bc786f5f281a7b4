/** `MappingSpreadsheet`: the curated dataset. Three insertion-ordered tables
    (fields, methods, params) from unmapped name to an immutable `Entry`, a
    tolerant reader over the rows of the curated CSV file, and a writer. */
module Spreadsheet {
  import opened Wrappers
  import opened Text
  import opened Sides
  import opened SrgPatterns
  import opened Tables

  /** `HEADER`: the first row of the curated file. */
  const Header: seq<string> :=
    ["Validated", "Class Name", "Unmapped Name", "Mapped Name", "Side(auto, 0 client 2 both)", "JavaDocs Comment"]

  /** `MappingSpreadsheet.Entry` */
  datatype Entry = Entry(
    validated: bool,
    className: string,
    unmappedName: string,
    mappedName: string,
    side: Side,
    javadocComment: string)

  function UnmappedName(e: Entry): string {
    e.unmappedName
  }

  /** `Boolean.toString(b).toUpperCase(Locale.ROOT)` */
  function BoolCell(b: bool): (cell: string)
    ensures (cell == "TRUE") == b
  {
    if b then "TRUE" else "FALSE"
  }

  /** `Entry.toCSVLine()`: six cells, in the column order of `Header`. */
  function ToCsvLine(e: Entry): (line: seq<string>)
    ensures |line| == |Header|
    ensures line[0] == (if e.validated then "TRUE" else "FALSE")
    ensures line[1] == e.className && line[2] == e.unmappedName && line[3] == e.mappedName
    ensures ParseInt(line[4]) == Some(ToNumber(e.side))
    ensures line[5] == e.javadocComment
  {
    [BoolCell(e.validated), e.className, e.unmappedName, e.mappedName, Code(e.side), e.javadocComment]
  }

  /** `Entry.compareTo(other)`: the difference of the two SRG numbers; `None`
      when either number cannot be found or parsed (the call throws). */
  function CompareTo(a: Entry, b: Entry): (r: Option<int>)
    ensures r.Some? <==> SrgNumber(a.unmappedName).Some? && SrgNumber(b.unmappedName).Some?
    ensures r.Some? ==> MinInt <= r.value <= MaxInt
    ensures r.Some? ==> (r.value < 0 <==> SrgNumber(a.unmappedName).value < SrgNumber(b.unmappedName).value)
    ensures r.Some? ==> (r.value == 0 <==> SrgNumber(a.unmappedName).value == SrgNumber(b.unmappedName).value)
  {
    match (SrgNumber(a.unmappedName), SrgNumber(b.unmappedName))
    case (Some(a1), Some(a2)) => Some(a1 - a2)
    case _ => None
  }

  /** The comparison is antisymmetric, and zero exactly on equal numbers. */
  lemma CompareToAntisymmetric(a: Entry, b: Entry)
    ensures CompareTo(a, b).Some? <==> CompareTo(b, a).Some?
    ensures CompareTo(a, b).Some? ==> CompareTo(b, a).value == -CompareTo(a, b).value
  {
  }

  lemma NumberOfFunc2()
    ensures SrgNumber("func_2_x") == Some(2)
  {
    var x := "func_2_x";
    assert DigitRunEnd(x, 5) == 6 by { DigitRunEndAt(x, 5, 6); }
    assert forall q :: 6 <= q < |x| ==> !IdMarkAt(x, q) by { NoMarkAfter(x, 6); }
    assert ParseInt(x[5..6]) == Some(2) by {
      assert x[5..6] == "2";
      assert DigitsValue("2") == 2 by { assert "2"[..0] == ""; }
    }
    MemberSrgNumber(MethodPrefix, x);
  }

  lemma NumberOfFunc10()
    ensures SrgNumber("func_10_y") == Some(10)
  {
    var y := "func_10_y";
    assert DigitRunEnd(y, 5) == 7 by { DigitRunEndAt(y, 5, 7); }
    assert forall q :: 7 <= q < |y| ==> !IdMarkAt(y, q) by { NoMarkAfter(y, 7); }
    assert ParseInt(y[5..7]) == Some(10) by {
      assert y[5..7] == "10";
      assert DigitsValue("10") == 10 by { assert "10"[..1] == "1" && "1"[..0] == ""; }
    }
    MemberSrgNumber(MethodPrefix, y);
  }

  /** No id mark from `i` on in a name whose only underscore from there is at
      `i` and is followed by a letter. */
  lemma NoMarkAfter(s: string, i: nat)
    requires i + 1 < |s| && s[i] == '_' && !IsDigit(s[i + 1]) && s[i + 1] != 'i'
    requires forall q :: i < q < |s| ==> s[q] != '_'
    ensures forall q :: i <= q < |s| ==> !IdMarkAt(s, q)
  {
  }

  /** As strings, `"func_10_y"` sorts before `"func_2_x"`. */
  lemma LexicalOrderExample()
    ensures LexLe("func_10_y", "func_2_x") && !LexLe("func_2_x", "func_10_y")
  {
    var x, y := "func_2_x", "func_10_y";
    assert LexLe(y[5..], x[5..]) && !LexLe(x[5..], y[5..]) by {
      assert y[5..][0] == '1' && x[5..][0] == '2';
    }
    assert LexLe(y[4..], x[4..]) == LexLe(y[5..], x[5..]) by { assert y[4..][1..] == y[5..] && x[4..][1..] == x[5..]; }
    assert LexLe(x[4..], y[4..]) == LexLe(x[5..], y[5..]) by { assert y[4..][1..] == y[5..] && x[4..][1..] == x[5..]; }
    assert LexLe(y[3..], x[3..]) == LexLe(y[4..], x[4..]) by { assert y[3..][1..] == y[4..] && x[3..][1..] == x[4..]; }
    assert LexLe(x[3..], y[3..]) == LexLe(x[4..], y[4..]) by { assert y[3..][1..] == y[4..] && x[3..][1..] == x[4..]; }
    assert LexLe(y[2..], x[2..]) == LexLe(y[3..], x[3..]) by { assert y[2..][1..] == y[3..] && x[2..][1..] == x[3..]; }
    assert LexLe(x[2..], y[2..]) == LexLe(x[3..], y[3..]) by { assert y[2..][1..] == y[3..] && x[2..][1..] == x[3..]; }
    assert LexLe(y[1..], x[1..]) == LexLe(y[2..], x[2..]) by { assert y[1..][1..] == y[2..] && x[1..][1..] == x[2..]; }
    assert LexLe(x[1..], y[1..]) == LexLe(x[2..], y[2..]) by { assert y[1..][1..] == y[2..] && x[1..][1..] == x[2..]; }
  }

  /** The natural order is numeric, not lexical: `func_2_x` comes before
      `func_10_y` although `"func_10_y"` is the smaller string. */
  lemma NaturalOrderExample()
    ensures var a := Entry(true, "", "func_2_x", "", Client, "");
            var b := Entry(true, "", "func_10_y", "", Client, "");
            CompareTo(a, b).Some? && CompareTo(a, b).value < 0 &&
            LexLe(b.unmappedName, a.unmappedName) && !LexLe(a.unmappedName, b.unmappedName)
  {
    NumberOfFunc2();
    NumberOfFunc10();
    LexicalOrderExample();
  }

  // ---------------------------------------------------------------------------
  // The dataset

  /** The value of the three tables of a `MappingSpreadsheet`. */
  datatype Sheet = Sheet(fields: Table<Entry>, methods: Table<Entry>, params: Table<Entry>) {

    ghost predicate Valid() {
      fields.Valid() && methods.Valid() && params.Valid()
    }

    function TableOf(c: Category): Table<Entry> {
      match c
      case Field => fields
      case Method => methods
      case Param => params
    }

    function With(c: Category, t: Table<Entry>): (r: Sheet)
      ensures r.TableOf(c) == t
      ensures forall c' :: c' != c ==> r.TableOf(c') == TableOf(c')
    {
      match c
      case Field => Sheet(t, methods, params)
      case Method => Sheet(fields, t, params)
      case Param => Sheet(fields, methods, t)
    }

    /** `addField`, `addMethod` or `addParam`: a `put` into one table, the
        other two unchanged. */
    function Add(c: Category, name: string, e: Entry): (r: Sheet)
      ensures Valid() ==> r.Valid()
      ensures r.TableOf(c).Get(name) == Some(e)
      ensures forall k :: k != name ==> r.TableOf(c).Get(k) == TableOf(c).Get(k)
      ensures r.TableOf(c).keys == if TableOf(c).Has(name) then TableOf(c).keys else TableOf(c).keys + [name]
      ensures forall c' :: c' != c ==> r.TableOf(c') == TableOf(c')
    {
      With(c, TableOf(c).Put(name, e))
    }
  }

  const EmptySheet: Sheet := Sheet(Empty(), Empty(), Empty())

  /** A dataset as `read` builds it: each entry stored under its own unmapped
      name, in the table whose pattern that name matches. */
  ghost predicate WellFormed(sh: Sheet) {
    && sh.Valid()
    && forall c :: && KeyedBy(sh.TableOf(c), UnmappedName)
                && forall k :: k in sh.TableOf(c).vals ==> Matches(c, k)
  }

  /** `MappingSpreadsheet`, with its three `LinkedHashMap` fields. */
  class MappingSpreadsheet {
    var methods: Table<Entry>
    var fields: Table<Entry>
    var params: Table<Entry>

    ghost predicate Valid()
      reads this
    {
      methods.Valid() && fields.Valid() && params.Valid()
    }

    function State(): Sheet
      reads this
    {
      Sheet(fields, methods, params)
    }

    constructor ()
      ensures Valid() && State() == EmptySheet
    {
      methods, fields, params := Empty(), Empty(), Empty();
    }

    /** `addMethod`, `addField` and `addParam`, told apart by `c`. */
    method Add(c: Category, name: string, newEntry: Entry)
      requires Valid()
      modifies this
      ensures Valid()
      ensures State() == old(State()).Add(c, name, newEntry)
    {
      match c
      case Method => methods := methods.Put(name, newEntry);
      case Field => fields := fields.Put(name, newEntry);
      case Param => params := params.Put(name, newEntry);
    }

    /** `hasMethod`, `hasField` and `hasParam`: whether `name` was ever put
        into the table, so whether it is among the names `write` lists. */
    function Has(c: Category, name: string): (r: bool)
      reads this
      ensures r <==> Get(c, name).Some?
      ensures Valid() ==> (r <==> name in State().TableOf(c).keys)
    {
      State().TableOf(c).Has(name)
    }

    /** `getMethod`, `getField` and `getParam`; `None` is `null`. In a dataset
        `read` built, the entry found is stored under its own name and that
        name matches the table's pattern. */
    function Get(c: Category, name: string): (r: Option<Entry>)
      reads this
      ensures r.Some? <==> name in State().TableOf(c).vals
      ensures r.Some? ==> r.value == State().TableOf(c).vals[name]
      ensures WellFormed(State()) && r.Some? ==> r.value.unmappedName == name && Matches(c, name)
    {
      State().TableOf(c).Get(name)
    }

    /** `write`, with the rows handed back instead of going to a `CSVWriter`. */
    method Write() returns (rows: Option<seq<seq<string>>>)
      requires Valid()
      ensures rows == WriteRows(State())
    {
      // sorting the unused list of all entries throws on a name without a number
      if DeadSortThrows(State()) {
        return None;
      }
      var out := [Header];
      out := AppendRows(out, fields);
      out := AppendRows(out, methods);
      out := AppendRows(out, params);
      CsvLinesAppend(fields.Values(), methods.Values());
      CsvLinesAppend(fields.Values() + methods.Values(), params.Values());
      Regroup(Header, CsvLines(fields.Values()), CsvLines(methods.Values()), CsvLines(params.Values()));
      rows := Some(out);
    }
  }

  // ---------------------------------------------------------------------------
  // write

  /** The CSV lines of the entries `es`, in order. */
  function CsvLines(es: seq<Entry>): (lines: seq<seq<string>>)
    ensures |lines| == |es|
  {
    if es == [] then [] else [ToCsvLine(es[0])] + CsvLines(es[1..])
  }

  lemma {:induction false} CsvLinesAt(es: seq<Entry>, n: nat)
    requires n < |es|
    ensures CsvLines(es)[n] == ToCsvLine(es[n])
  {
    if n > 0 {
      CsvLinesAt(es[1..], n - 1);
    }
  }

  lemma {:induction false} CsvLinesAppend(a: seq<Entry>, b: seq<Entry>)
    ensures CsvLines(a + b) == CsvLines(a) + CsvLines(b)
  {
    if a == [] {
      assert a + b == b;
    } else {
      assert (a + b)[1..] == a[1..] + b;
      CsvLinesAppend(a[1..], b);
    }
  }

  /** One of the three loops of `write`: the CSV line of every entry of `t`,
      in insertion order, appended to `out`. */
  method AppendRows(out: seq<seq<string>>, t: Table<Entry>) returns (r: seq<seq<string>>)
    requires t.Valid()
    ensures r == out + CsvLines(t.Values())
  {
    r := out;
    var vs := t.Values();
    for i := 0 to |vs|
      invariant r == out + CsvLines(vs[..i])
    {
      CsvLinesStep(out, vs, i);
      r := r + [ToCsvLine(vs[i])];
    }
    assert vs[..|vs|] == vs;
  }

  lemma CsvLinesStep(out: seq<seq<string>>, vs: seq<Entry>, i: nat)
    requires i < |vs|
    ensures out + CsvLines(vs[..i + 1]) == out + CsvLines(vs[..i]) + [ToCsvLine(vs[i])]
  {
    assert vs[..i + 1] == vs[..i] + [vs[i]];
    CsvLinesAppend(vs[..i], [vs[i]]);
    assert CsvLines([vs[i]]) == [ToCsvLine(vs[i])] by { assert [vs[i]][1..] == []; }
  }

  lemma Regroup<T>(h: T, a: seq<T>, b: seq<T>, c: seq<T>)
    ensures [h] + a + b + c == [h] + (a + b + c)
  {
  }

  /** The list sorted at the start of `write` is never written; sorting it
      compares every element once there are two or more, and a comparison
      throws on a name with no SRG number. */
  predicate DeadSortThrows(sh: Sheet)
    requires sh.Valid()
  {
    var entries := sh.fields.Values() + sh.methods.Values() + sh.params.Values();
    |entries| >= 2 && exists e :: e in entries && SrgNumber(e.unmappedName).None?
  }

  /** In a dataset `read` built every name matches a pattern and so has an
      id mark: the dead sort can only throw because an id overflows an `int`
      (`NumberFormatException`), never because `find()` fails. */
  lemma DeadSortOnlyOnOverflow(sh: Sheet)
    requires WellFormed(sh)
    ensures DeadSortThrows(sh) ==>
      exists e :: e in sh.fields.Values() + sh.methods.Values() + sh.params.Values() &&
        FindGroupFrom(e.unmappedName, 0).Some? && ParseInt(FindGroupFrom(e.unmappedName, 0).value).None?
  {
    var entries := sh.fields.Values() + sh.methods.Values() + sh.params.Values();
    if DeadSortThrows(sh) {
      var e :| e in entries && SrgNumber(e.unmappedName).None?;
      if e in sh.fields.Values() {
        StoredNameMatches(sh, Field, e);
      } else if e in sh.methods.Values() {
        StoredNameMatches(sh, Method, e);
      } else {
        StoredNameMatches(sh, Param, e);
      }
    }
  }

  /** A stored entry's name matches its table's pattern, so it has an id
      group. */
  lemma StoredNameMatches(sh: Sheet, c: Category, e: Entry)
    requires WellFormed(sh)
    requires e in sh.TableOf(c).Values()
    ensures FindGroupFrom(e.unmappedName, 0).Some?
  {
    var t := sh.TableOf(c);
    var i :| 0 <= i < |t.keys| && t.Values()[i] == e;
    assert t.keys[i] in t.vals;
    MatchedNameHasGroup(c, e.unmappedName);
  }

  /** What `write` writes: the header, then the fields, the methods and the
      params, each table in its own insertion order. */
  function WriteRows(sh: Sheet): Option<seq<seq<string>>>
    requires sh.Valid()
  {
    if DeadSortThrows(sh) then None
    else Some([Header] + CsvLines(sh.fields.Values() + sh.methods.Values() + sh.params.Values()))
  }

  // ---------------------------------------------------------------------------
  // read

  /** Why a row of the curated file adds nothing. */
  datatype Skip = WrongLength | HeaderRow | SideNotInteger | UnknownName

  /** What one pass of the row loop of `read` does. `Aborted` is the
      `ArrayIndexOutOfBoundsException` of a side outside 0..2, which nothing
      catches, so the whole read fails. */
  datatype RowOutcome = Skipped(why: Skip) | Aborted | Inserted(category: Category, entry: Entry)

  /** One pass of the row loop of `read`, for row `line` at index `i`. */
  function ParseRow(i: nat, line: seq<string>): (o: RowOutcome)
    ensures |line| != 6 ==> o == Skipped(WrongLength)
    ensures |line| == 6 && i == 0 ==> o == Skipped(HeaderRow)
    ensures |line| == 6 && i > 0 && ParseInt(line[4]).None? ==> o == Skipped(SideNotInteger)
    ensures o.Aborted? <==> |line| == 6 && i > 0 && ParseInt(line[4]).Some? && !(0 <= ParseInt(line[4]).value <= 2)
    ensures o.Inserted? <==>
      |line| == 6 && i > 0 && ParseInt(line[4]).Some? && 0 <= ParseInt(line[4]).value <= 2 && Classify(line[2]).Some?
    ensures o.Inserted? ==>
      && Matches(o.category, line[2])
      && o.entry.validated == (line[0] == "TRUE")
      && o.entry.className == line[1] && o.entry.unmappedName == line[2] && o.entry.mappedName == line[3]
      && ParseInt(line[4]) == Some(ToNumber(o.entry.side))
      && o.entry.javadocComment == line[5]
  {
    if |line| != 6 then Skipped(WrongLength)
    else if i == 0 then Skipped(HeaderRow)
    else
      var validate := line[0] == "TRUE";
      match ParseInt(line[4])
      case None => Skipped(SideNotInteger)
      case Some(n) =>
        match From(n)
        case None => Aborted
        case Some(side) =>
          var unmapped := line[2];
          match Classify(unmapped)
          case None => Skipped(UnknownName)
          case Some(c) =>
            ClassifyExact(c, unmapped);
            Inserted(c, Entry(validate, line[1], unmapped, line[3], side, line[5]))
  }

  /** A signed side cell is an integer to `parseInt`: `-1` aborts the read
      instead of skipping the row, `+2` selects BOTH and `-0` selects CLIENT,
      while a value past the `int` range only skips the row. */
  lemma SignedSideCells(i: nat, line: seq<string>)
    requires |line| == 6 && i > 0
    ensures line[4] == "-1" ==> ParseRow(i, line) == Aborted
    ensures line[4] == "+2" && Classify(line[2]).Some? ==> ParseRow(i, line).Inserted? && ParseRow(i, line).entry.side == Both
    ensures line[4] == "-0" && Classify(line[2]).Some? ==> ParseRow(i, line).Inserted? && ParseRow(i, line).entry.side == Client
    ensures line[4] == "2147483648" ==> ParseRow(i, line) == Skipped(SideNotInteger)
  {
    SignedExamples();
  }

  /** The row loop of `read` from row `i` on, over the dataset `sheet` built
      from the rows before it; `None` when the read fails. */
  function ReadFrom(sheet: Sheet, i: nat, lines: seq<seq<string>>): Option<Sheet>
    decreases |lines|, 1
  {
    if lines == [] then Some(sheet) else ReadRow(sheet, i, lines)
  }

  /** One pass of the row loop, over the first of `lines`, and the rest of the
      loop after it. */
  function ReadRow(sheet: Sheet, i: nat, lines: seq<seq<string>>): Option<Sheet>
    requires lines != []
    decreases |lines|, 0
  {
    match ParseRow(i, lines[0])
    case Skipped(_) => ReadFrom(sheet, i + 1, lines[1..])
    case Aborted => None
    case Inserted(c, e) => ReadFrom(sheet.Add(c, e.unmappedName, e), i + 1, lines[1..])
  }

  /** `read`, over the rows of the curated file. */
  method Read(lines: seq<seq<string>>) returns (r: Option<MappingSpreadsheet>)
    ensures r.None? <==> ReadFrom(EmptySheet, 0, lines).None?
    ensures r.Some? ==> fresh(r.value) && r.value.Valid() && ReadFrom(EmptySheet, 0, lines) == Some(r.value.State())
  {
    var mappings := new MappingSpreadsheet();
    for i := 0 to |lines|
      invariant fresh(mappings) && mappings.Valid()
      invariant ReadFrom(EmptySheet, 0, lines) == ReadFrom(mappings.State(), i, lines[i..])
    {
      var line := lines[i];
      assert lines[i..][0] == line && lines[i..][1..] == lines[i + 1..];
      if |line| != 6 {
        continue;
      }
      if i == 0 {
        continue;
      }
      var validate := false;
      if line[0] == "TRUE" {
        validate := true;
      }
      var n := ParseInt(line[4]);
      if n.None? {
        continue;
      }
      var side := From(n.value);
      if side.None? {
        return None;
      }
      var unmapped := line[2];
      var e := Entry(validate, line[1], unmapped, line[3], side.value, line[5]);
      if MatchesMemberSrg(MethodPrefix, unmapped) {
        mappings.Add(Method, unmapped, e);
      } else if MatchesMemberSrg(FieldPrefix, unmapped) {
        mappings.Add(Field, unmapped, e);
      } else if MatchesParamSrg(unmapped) {
        mappings.Add(Param, unmapped, e);
      }
    }
    assert lines[|lines|..] == [];
    return Some(mappings);
  }

  /** Adding an entry under its own name to the table its name matches keeps
      a dataset well formed. */
  lemma AddWellFormed(sh: Sheet, c: Category, e: Entry)
    requires WellFormed(sh) && Matches(c, e.unmappedName)
    ensures WellFormed(sh.Add(c, e.unmappedName, e))
  {
    var r := sh.Add(c, e.unmappedName, e);
    forall c' ensures KeyedBy(r.TableOf(c'), UnmappedName)
                      && forall k :: k in r.TableOf(c').vals ==> Matches(c', k)
    {
      if c' == c {
        forall k | k in r.TableOf(c).vals
          ensures UnmappedName(r.TableOf(c).vals[k]) == k && Matches(c, k)
        {
          assert r.TableOf(c).Get(k).Some?;
          if k != e.unmappedName {
            assert sh.TableOf(c).Get(k) == r.TableOf(c).Get(k);
          }
        }
      }
    }
  }

  /** Each table of a well-formed dataset is keyed by unmapped name. */
  lemma KeyedTables(sh: Sheet)
    requires WellFormed(sh)
    ensures KeyedBy(sh.methods, UnmappedName) && KeyedBy(sh.fields, UnmappedName) && KeyedBy(sh.params, UnmappedName)
  {
    assert sh.TableOf(Method) == sh.methods;
    assert sh.TableOf(Field) == sh.fields;
    assert sh.TableOf(Param) == sh.params;
  }

  /** Every dataset `read` returns is well formed: each entry sits under its
      own unmapped name, in the one table whose pattern that name matches. */
  lemma {:induction false} ReadWellFormed(sheet: Sheet, i: nat, lines: seq<seq<string>>)
    requires WellFormed(sheet)
    ensures ReadFrom(sheet, i, lines).Some? ==> WellFormed(ReadFrom(sheet, i, lines).value)
    decreases |lines|
  {
    if lines != [] {
      match ParseRow(i, lines[0])
      case Skipped(_) => ReadWellFormed(sheet, i + 1, lines[1..]);
      case Aborted =>
      case Inserted(c, e) =>
        AddWellFormed(sheet, c, e);
        ReadWellFormed(sheet.Add(c, e.unmappedName, e), i + 1, lines[1..]);
    }
  }

  /** A row written by `toCSVLine` reads back as the same entry, in the
      category its unmapped name selects, at any row but the header row. */
  lemma CsvLineRoundTrip(i: nat, e: Entry)
    requires i > 0 && Classify(e.unmappedName).Some?
    ensures ParseRow(i, ToCsvLine(e)) == Inserted(Classify(e.unmappedName).value, e)
  {
    var line := ToCsvLine(e);
    FromToNumber(e.side);
    assert (line[0] == "TRUE") == e.validated;
  }

  function Always(e: Entry): bool {
    true
  }

  function Same(e: Entry): Entry {
    e
  }

  lemma SheetExt(a: Sheet, b: Sheet)
    requires forall c :: a.TableOf(c) == b.TableOf(c)
    ensures a == b
  {
    assert a.TableOf(Field) == b.TableOf(Field) && a.TableOf(Method) == b.TableOf(Method);
    assert a.TableOf(Param) == b.TableOf(Param);
  }

  /** Reading the CSV lines of entries that all belong in table `c` puts them
      into `c` one by one, as `PutAll` does, and leaves the other tables; the
      rows after them are then read from row `j` on. */
  lemma {:induction false} ReadCsvLines(sheet: Sheet, i: nat, c: Category, es: seq<Entry>, rest: seq<seq<string>>,
                                        target: Sheet, j: nat)
    requires i > 0
    requires forall n :: 0 <= n < |es| ==> Classify(es[n].unmappedName) == Some(c)
    requires target == sheet.With(c, PutAll(sheet.TableOf(c), es, UnmappedName, Always, Same))
    requires j == i + |es|
    ensures ReadFrom(sheet, i, CsvLines(es) + rest) == ReadFrom(target, j, rest)
    decreases |es|
  {
    if es == [] {
      assert CsvLines(es) + rest == rest;
      SheetExt(sheet, target);
    } else {
      var lines := CsvLines(es) + rest;
      var tail := CsvLines(es[1..]) + rest;
      CsvLinesCons(es, rest);
      var next := sheet.Add(c, es[0].unmappedName, es[0]);
      ReadFirstRow(sheet, i, c, es[0], lines, tail);
      PutAllFirst(sheet, c, es);
      ReadCsvLines(next, i + 1, c, es[1..], rest, target, j);
    }
  }

  lemma CsvLinesCons(es: seq<Entry>, rest: seq<seq<string>>)
    requires es != []
    ensures CsvLines(es) + rest != []
    ensures (CsvLines(es) + rest)[0] == ToCsvLine(es[0])
    ensures (CsvLines(es) + rest)[1..] == CsvLines(es[1..]) + rest
  {
    assert CsvLines(es) == [ToCsvLine(es[0])] + CsvLines(es[1..]);
    ConsAppend(ToCsvLine(es[0]), CsvLines(es[1..]), rest);
  }

  lemma ConsAppend<T>(x: T, a: seq<T>, rest: seq<T>)
    ensures ([x] + a + rest)[0] == x && ([x] + a + rest)[1..] == a + rest
  {
  }

  /** The first row of `lines`, the CSV line of `e`, is read into table `c`. */
  lemma ReadFirstRow(sheet: Sheet, i: nat, c: Category, e: Entry, lines: seq<seq<string>>, tail: seq<seq<string>>)
    requires i > 0 && Classify(e.unmappedName) == Some(c)
    requires lines != [] && lines[0] == ToCsvLine(e) && lines[1..] == tail
    ensures ReadFrom(sheet, i, lines) == ReadFrom(sheet.Add(c, e.unmappedName, e), i + 1, tail)
  {
    CsvLineRoundTrip(i, e);
  }

  /** Putting the first entry and then the rest, over a sheet, is putting all. */
  lemma PutAllFirst(sheet: Sheet, c: Category, es: seq<Entry>)
    requires es != []
    ensures var next := sheet.Add(c, es[0].unmappedName, es[0]);
            next.With(c, PutAll(next.TableOf(c), es[1..], UnmappedName, Always, Same))
            == sheet.With(c, PutAll(sheet.TableOf(c), es, UnmappedName, Always, Same))
  {
    var next := sheet.Add(c, es[0].unmappedName, es[0]);
    var t := PutAll(sheet.TableOf(c), es, UnmappedName, Always, Same);
    assert t == PutAll(next.TableOf(c), es[1..], UnmappedName, Always, Same);
    SheetExt(next.With(c, t), sheet.With(c, t));
  }

  /** Copying a table of a well-formed dataset entry by entry into an empty
      table rebuilds it. */
  lemma CopyTable(sh: Sheet, c: Category)
    requires WellFormed(sh)
    ensures PutAll(Empty(), sh.TableOf(c).Values(), UnmappedName, Always, Same) == sh.TableOf(c)
  {
    assert KeyedBy(sh.TableOf(c), UnmappedName);
    CopyKeyedTable(sh.TableOf(c));
  }

  lemma CopyKeyedTable(t: Table<Entry>)
    requires t.Valid() && KeyedBy(t, UnmappedName)
    ensures PutAll(Empty(), t.Values(), UnmappedName, Always, Same) == t
  {
    var r := PutAll(Empty(), t.Values(), UnmappedName, Always, Same);
    PutAllValues(t, UnmappedName, Always, Same);
    KeysWhereAll(t.keys, t.vals, Always);
    forall k ensures r.Get(k) == t.Get(k) {
    }
    TableExt(r, t);
  }

  /** The header row of a written file is skipped. */
  lemma ReadHeader(rows: seq<seq<string>>)
    requires rows != [] && rows[0] == Header
    ensures ReadFrom(EmptySheet, 0, rows) == ReadFrom(EmptySheet, 1, rows[1..])
  {
    assert ParseRow(0, rows[0]) == Skipped(HeaderRow);
  }

  /** Every entry of table `c` of a well-formed dataset is classified as `c`. */
  lemma ClassifiedValues(sh: Sheet, c: Category)
    requires WellFormed(sh)
    ensures forall n :: 0 <= n < |sh.TableOf(c).Values()| ==> Classify(sh.TableOf(c).Values()[n].unmappedName) == Some(c)
  {
    var t := sh.TableOf(c);
    forall n | 0 <= n < |t.Values()| ensures Classify(t.Values()[n].unmappedName) == Some(c) {
      assert t.keys[n] in t.vals;
      ClassifyExact(c, t.keys[n]);
    }
  }

  /** Reading the rows of the three tables of a well-formed dataset, fields
      first, then methods, then params, rebuilds it. */
  lemma ReadGroups(sh: Sheet)
    requires WellFormed(sh)
    ensures ReadFrom(EmptySheet, 1, CsvLines(sh.fields.Values()) + (CsvLines(sh.methods.Values()) + (CsvLines(sh.params.Values()) + [])))
         == Some(sh)
  {
    var f, m, p := sh.fields.Values(), sh.methods.Values(), sh.params.Values();
    ClassifiedValues(sh, Field);
    ClassifiedValues(sh, Method);
    ClassifiedValues(sh, Param);
    var s1 := Sheet(sh.fields, Empty(), Empty());
    var s2 := Sheet(sh.fields, sh.methods, Empty());
    CopyTable(sh, Field);
    SheetExt(s1, EmptySheet.With(Field, PutAll(Empty(), f, UnmappedName, Always, Same)));
    ReadCsvLines(EmptySheet, 1, Field, f, CsvLines(m) + (CsvLines(p) + []), s1, 1 + |f|);
    CopyTable(sh, Method);
    SheetExt(s2, s1.With(Method, PutAll(Empty(), m, UnmappedName, Always, Same)));
    ReadCsvLines(s1, 1 + |f|, Method, m, CsvLines(p) + [], s2, 1 + |f| + |m|);
    CopyTable(sh, Param);
    SheetExt(sh, s2.With(Param, PutAll(Empty(), p, UnmappedName, Always, Same)));
    ReadCsvLines(s2, 1 + |f| + |m|, Param, p, [], sh, 1 + |f| + |m| + |p|);
    assert ReadFrom(sh, 1 + |f| + |m| + |p|, []) == Some(sh);
  }

  /** What `write` writes, `read` reads back as the same dataset: same tables,
      same entries, same iteration order. This is a statement about rows of
      cells: the CSV text between them is not modelled, so a cell that the
      text layer would not return unchanged (opencsv's reader takes `\` as an
      escape its writer does not produce) is outside what it says. */
  lemma WriteReadRoundTrip(sh: Sheet)
    requires WellFormed(sh) && WriteRows(sh).Some?
    ensures ReadFrom(EmptySheet, 0, WriteRows(sh).value) == Some(sh)
  {
    var f, m, p := sh.fields.Values(), sh.methods.Values(), sh.params.Values();
    var rows := WriteRows(sh).value;
    WrittenRows(sh);
    ReadHeader(rows);
    ReadGroups(sh);
  }

  /** The rows `write` writes are the header and then the CSV lines of the
      three tables, each table a block of its own. */
  lemma WrittenRows(sh: Sheet)
    requires sh.Valid() && WriteRows(sh).Some?
    ensures var rows := WriteRows(sh).value;
      && rows != [] && rows[0] == Header
      && rows[1..] == CsvLines(sh.fields.Values()) + (CsvLines(sh.methods.Values()) + (CsvLines(sh.params.Values()) + []))
  {
    var f, m, p := sh.fields.Values(), sh.methods.Values(), sh.params.Values();
    CsvLinesAppend(f, m);
    CsvLinesAppend(f + m, p);
    DropHead(Header, CsvLines(f), CsvLines(m), CsvLines(p));
  }

  lemma DropHead<T>(h: T, a: seq<T>, b: seq<T>, c: seq<T>)
    ensures ([h] + (a + b + c))[1..] == a + (b + (c + []))
  {
  }
}
