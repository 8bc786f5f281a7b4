/** `MappingExport`: the export dataset. Three insertion-ordered tables from
    unmapped name to `MemberEntry` or `ParamEntry`, a writer that sorts each
    table by unmapped name and leaves out blank mapped names, and a strict
    reader. */
module Export {
  import opened Wrappers
  import opened Text
  import opened Sides
  import opened Tables

  /** `METHODS_CSV_HEADER`, `FIELDS_CSV_HEADER` and `PARAMS_CSV_HEADER` */
  const MethodsHeader: seq<string> := ["searge", "name", "side", "desc"]
  const FieldsHeader: seq<string> := ["searge", "name", "side", "desc"]
  const ParamsHeader: seq<string> := ["func", "name", "side"]

  /** `MappingExport.MemberEntry`, for methods and fields. */
  datatype MemberEntry = MemberEntry(unmappedName: string, mappedName: string, side: Side, javadoc: string)

  /** `MappingExport.ParamEntry` */
  datatype ParamEntry = ParamEntry(unmappedName: string, mappedName: string, side: Side)

  function MemberName(e: MemberEntry): string {
    e.unmappedName
  }

  function MemberMapped(e: MemberEntry): string {
    e.mappedName
  }

  function ParamName(e: ParamEntry): string {
    e.unmappedName
  }

  function ParamMapped(e: ParamEntry): string {
    e.mappedName
  }

  /** The cells `write` joins for a method or field. */
  function MemberCells(e: MemberEntry): (cells: seq<string>)
    ensures |cells| == 4
    ensures cells[0] == e.unmappedName && cells[1] == e.mappedName && cells[3] == e.javadoc
    ensures ParseInt(cells[2]) == Some(ToNumber(e.side)) && ',' !in cells[2]
  {
    [e.unmappedName, e.mappedName, Code(e.side), e.javadoc]
  }

  /** The cells `write` joins for a param; params have no javadoc column. */
  function ParamCells(e: ParamEntry): (cells: seq<string>)
    ensures |cells| == 3
    ensures cells[0] == e.unmappedName && cells[1] == e.mappedName
    ensures ParseInt(cells[2]) == Some(ToNumber(e.side)) && ',' !in cells[2]
  {
    [e.unmappedName, e.mappedName, Code(e.side)]
  }

  /** A row of the methods or fields file, as `read` takes it: `None` when a
      cell is missing, the side is not an integer or the side is out of range,
      each of which throws out of the whole read. Cells after the fourth are
      ignored. */
  function ParseMember(cells: seq<string>): (r: Option<MemberEntry>)
    ensures r.Some? <==> |cells| >= 4 && ParseInt(cells[2]).Some? && 0 <= ParseInt(cells[2]).value <= 2
    ensures r.Some? ==> && r.value.unmappedName == cells[0] && r.value.mappedName == cells[1]
                        && ParseInt(cells[2]) == Some(ToNumber(r.value.side)) && r.value.javadoc == cells[3]
  {
    if |cells| < 4 then None
    else
      match ParseInt(cells[2])
      case None => None
      case Some(n) =>
        match From(n)
        case None => None
        case Some(side) => Some(MemberEntry(cells[0], cells[1], side, cells[3]))
  }

  /** A row of the params file, as `read` takes it. */
  function ParseParam(cells: seq<string>): (r: Option<ParamEntry>)
    ensures r.Some? <==> |cells| >= 3 && ParseInt(cells[2]).Some? && 0 <= ParseInt(cells[2]).value <= 2
    ensures r.Some? ==> && r.value.unmappedName == cells[0] && r.value.mappedName == cells[1]
                        && ParseInt(cells[2]) == Some(ToNumber(r.value.side))
  {
    if |cells| < 3 then None
    else
      match ParseInt(cells[2])
      case None => None
      case Some(n) =>
        match From(n)
        case None => None
        case Some(side) => Some(ParamEntry(cells[0], cells[1], side))
  }

  /** The cells of a written row parse back as the entry they came from. */
  lemma MemberCellsParse(e: MemberEntry)
    ensures ParseMember(MemberCells(e)) == Some(e)
  {
    FromToNumber(e.side);
  }

  lemma ParamCellsParse(e: ParamEntry)
    ensures ParseParam(ParamCells(e)) == Some(e)
  {
    FromToNumber(e.side);
  }

  // ---------------------------------------------------------------------------
  // Ordering

  /** Ascending by name under `String.compareTo`. */
  ghost predicate SortedBy<T>(s: seq<T>, name: T -> string) {
    forall i, j :: 0 <= i < j < |s| ==> LexLe(name(s[i]), name(s[j]))
  }

  ghost predicate AdjacentSorted<T>(s: seq<T>, name: T -> string) {
    forall k :: 0 < k < |s| ==> LexLe(name(s[k - 1]), name(s[k]))
  }

  /** Neighbours in order means all pairs in order, `LexLe` being transitive. */
  lemma {:induction false} AdjacentToSorted<T>(s: seq<T>, name: T -> string)
    requires AdjacentSorted(s, name)
    ensures SortedBy(s, name)
  {
    forall i, j | 0 <= i < j < |s| ensures LexLe(name(s[i]), name(s[j])) {
      PrefixOrdered(s, name, i, j);
    }
  }

  lemma {:induction false} PrefixOrdered<T>(s: seq<T>, name: T -> string, i: nat, j: nat)
    requires AdjacentSorted(s, name) && i < j < |s|
    ensures LexLe(name(s[i]), name(s[j]))
    decreases j - i
  {
    if i + 1 < j {
      PrefixOrdered(s, name, i, j - 1);
      LexLeTransitive(name(s[i]), name(s[j - 1]), name(s[j]));
    }
  }

  /** Exchanges `a[j - 1]` and `a[j]`. */
  method SwapDown<T>(a: array<T>, j: int)
    requires 0 < j < a.Length
    modifies a
    ensures a[j - 1] == old(a[j]) && a[j] == old(a[j - 1])
    ensures forall m :: 0 <= m < a.Length && m != j - 1 && m != j ==> a[m] == old(a[m])
    ensures multiset(a[..]) == old(multiset(a[..]))
  {
    a[j - 1], a[j] := a[j], a[j - 1];
  }

  /** `list.sort(Comparator.comparing(Entry::getUnmappedName))`, as an
      insertion sort of the array in place. */
  method SortByName<T>(a: array<T>, name: T -> string)
    modifies a
    ensures SortedBy(a[..], name)
    ensures multiset(a[..]) == old(multiset(a[..]))
  {
    var i := 0;
    while i < a.Length
      invariant 0 <= i <= a.Length
      invariant forall k :: 0 < k < i ==> LexLe(name(a[k - 1]), name(a[k]))
      invariant multiset(a[..]) == old(multiset(a[..]))
    {
      var j := i;
      while j > 0 && !LexLe(name(a[j - 1]), name(a[j]))
        invariant 0 <= j <= i
        invariant forall k :: 0 < k <= i && k != j ==> LexLe(name(a[k - 1]), name(a[k]))
        invariant 0 < j < i ==> LexLe(name(a[j - 1]), name(a[j + 1]))
        invariant multiset(a[..]) == old(multiset(a[..]))
      {
        LexLeTotal(name(a[j - 1]), name(a[j]));
        SwapDown(a, j);
        j := j - 1;
      }
      i := i + 1;
    }
    AdjacentToSorted(a[..], name);
  }

  // ---------------------------------------------------------------------------
  // write

  /** The rows of the entries of `s` whose mapped name is not blank, in order. */
  function NonBlankRows<T>(s: seq<T>, mapped: T -> string, cells: T -> seq<string>): seq<seq<string>>
    decreases |s|
  {
    if s == [] then []
    else (if IsBlank(mapped(s[0])) then [] else [cells(s[0])]) + NonBlankRows(s[1..], mapped, cells)
  }

  lemma {:induction false} NonBlankRowsSnoc<T>(s: seq<T>, x: T, mapped: T -> string, cells: T -> seq<string>)
    ensures NonBlankRows(s + [x], mapped, cells)
         == NonBlankRows(s, mapped, cells) + (if IsBlank(mapped(x)) then [] else [cells(x)])
    decreases |s|
  {
    if s == [] {
      assert [x][1..] == [];
    } else {
      var h := if IsBlank(mapped(s[0])) then [] else [cells(s[0])];
      var t := if IsBlank(mapped(x)) then [] else [cells(x)];
      assert (s + [x])[0] == s[0] && (s + [x])[1..] == s[1..] + [x];
      assert NonBlankRows(s + [x], mapped, cells) == h + NonBlankRows(s[1..] + [x], mapped, cells);
      NonBlankRowsSnoc(s[1..], x, mapped, cells);
      assert h + (NonBlankRows(s[1..], mapped, cells) + t) == (h + NonBlankRows(s[1..], mapped, cells)) + t;
    }
  }

  /** How many entries of `s` have a mapped name that is not blank. */
  function NonBlankCount<T>(s: seq<T>, mapped: T -> string): nat
    decreases |s|
  {
    if s == [] then 0 else (if IsBlank(mapped(s[0])) then 0 else 1) + NonBlankCount(s[1..], mapped)
  }

  lemma {:induction false} NonBlankRowsCount<T>(s: seq<T>, mapped: T -> string, cells: T -> seq<string>)
    ensures |NonBlankRows(s, mapped, cells)| == NonBlankCount(s, mapped)
    decreases |s|
  {
    if s != [] {
      NonBlankRowsCount(s[1..], mapped, cells);
    }
  }

  lemma {:induction false} NonBlankCountAppend<T>(s: seq<T>, u: seq<T>, mapped: T -> string)
    ensures NonBlankCount(s + u, mapped) == NonBlankCount(s, mapped) + NonBlankCount(u, mapped)
    decreases |s|
  {
    if s == [] {
      assert s + u == u;
    } else {
      assert (s + u)[1..] == s[1..] + u;
      NonBlankCountAppend(s[1..], u, mapped);
    }
  }

  /** Taking the entry at `j` out of `u` takes it out of the multiset. */
  lemma RemoveAtMultiset<T>(u: seq<T>, j: nat)
    requires j < |u|
    ensures multiset(u) == multiset(u[..j] + u[j + 1..]) + multiset{u[j]}
  {
    var a, b := u[..j], u[j + 1..];
    assert u == a + [u[j]] + b;
    assert multiset(u) == multiset(a) + multiset([u[j]]) + multiset(b);
    assert multiset(a + b) == multiset(a) + multiset(b);
  }

  /** Taking the entry at `j` out of `u` takes its share out of the count. */
  lemma RemoveAtCount<T>(u: seq<T>, j: nat, mapped: T -> string)
    requires j < |u|
    ensures NonBlankCount(u, mapped) == NonBlankCount(u[..j] + u[j + 1..], mapped) + NonBlankCount([u[j]], mapped)
  {
    assert u == u[..j] + [u[j]] + u[j + 1..];
    CountSplit(u[..j], u[j], u[j + 1..], mapped);
  }

  lemma CountSplit<T>(a: seq<T>, x: T, b: seq<T>, mapped: T -> string)
    ensures NonBlankCount(a + [x] + b, mapped) == NonBlankCount(a + b, mapped) + NonBlankCount([x], mapped)
  {
    assert a + [x] + b == a + ([x] + b);
    NonBlankCountAppend(a, [x] + b, mapped);
    NonBlankCountAppend([x], b, mapped);
    NonBlankCountAppend(a, b, mapped);
  }

  lemma MultisetCancel<T>(m: multiset<T>, n: multiset<T>, x: T)
    requires m + multiset{x} == n + multiset{x}
    ensures m == n
  {
    forall y ensures m[y] == n[y] {
      assert (m + multiset{x})[y] == (n + multiset{x})[y];
    }
  }

  /** A position of `x` in `u`. */
  lemma IndexIn<T>(u: seq<T>, x: T) returns (j: nat)
    requires x in multiset(u)
    ensures j < |u| && u[j] == x
  {
    assert x in u;
    j :| 0 <= j < |u| && u[j] == x;
  }

  lemma RemoveFirst<T>(s: seq<T>, mapped: T -> string)
    requires s != []
    ensures multiset(s) == multiset(s[1..]) + multiset{s[0]}
    ensures NonBlankCount(s, mapped) == NonBlankCount(s[1..], mapped) + NonBlankCount([s[0]], mapped)
  {
    assert s == [s[0]] + s[1..];
    NonBlankCountAppend([s[0]], s[1..], mapped);
  }

  /** The count depends only on which entries there are, not on their order:
      sorting does not change how many lines are written. */
  lemma {:induction false} NonBlankCountPermutation<T>(s: seq<T>, u: seq<T>, mapped: T -> string)
    requires multiset(s) == multiset(u)
    ensures NonBlankCount(s, mapped) == NonBlankCount(u, mapped)
    decreases |s|
  {
    if s == [] {
      assert |multiset(u)| == 0;
    } else {
      var x := s[0];
      var j := IndexIn(u, x);
      var rest := u[..j] + u[j + 1..];
      RemoveAtMultiset(u, j);
      RemoveAtCount(u, j, mapped);
      RemoveFirst(s, mapped);
      MultisetCancel(multiset(s[1..]), multiset(rest), x);
      NonBlankCountPermutation(s[1..], rest, mapped);
    }
  }

  /** Each row written as a line, its cells joined by `,`. */
  function JoinAll(rows: seq<seq<string>>): (lines: seq<string>)
    ensures |lines| == |rows|
  {
    if rows == [] then [] else [Join(rows[0])] + JoinAll(rows[1..])
  }

  lemma {:induction false} JoinAllSnoc(rows: seq<seq<string>>, row: seq<string>)
    ensures JoinAll(rows + [row]) == JoinAll(rows) + [Join(row)]
    decreases |rows|
  {
    if rows == [] {
      assert [row][1..] == [];
    } else {
      assert (rows + [row])[1..] == rows[1..] + [row];
      JoinAllSnoc(rows[1..], row);
    }
  }

  /** One table of `write`: its values copied into a list, sorted by unmapped
      name, and written after the header, one line per entry whose mapped
      name is not blank. `sorted` is the sorted list. */
  method WriteTable<T>(header: seq<string>, t: Table<T>, name: T -> string, mapped: T -> string,
                       cells: T -> seq<string>)
    returns (lines: seq<string>, ghost sorted: seq<T>)
    requires t.Valid()
    ensures SortedBy(sorted, name) && multiset(sorted) == multiset(t.Values())
    ensures lines == JoinAll([header] + NonBlankRows(sorted, mapped, cells))
    ensures |lines| == 1 + NonBlankCount(t.Values(), mapped) && lines[0] == Join(header)
  {
    var vs := t.Values();
    var a := new T[|vs|](i requires 0 <= i < |vs| => vs[i]);
    assert a[..] == vs;
    SortByName(a, name);
    sorted := a[..];
    lines := EmitRows(header, a[..], mapped, cells);
    NonBlankRowsCount(sorted, mapped, cells);
    NonBlankCountPermutation(sorted, vs, mapped);
  }

  /** The writing loop of one table: the header line, then one line per entry
      of `s` whose mapped name is not blank. */
  method EmitRows<T>(header: seq<string>, s: seq<T>, mapped: T -> string, cells: T -> seq<string>)
    returns (lines: seq<string>)
    ensures lines == JoinAll([header] + NonBlankRows(s, mapped, cells))
  {
    lines := [Join(header)];
    for i := 0 to |s|
      invariant lines == [Join(header)] + JoinAll(NonBlankRows(s[..i], mapped, cells))
    {
      var done := NonBlankRows(s[..i], mapped, cells);
      assert s[..i + 1] == s[..i] + [s[i]];
      NonBlankRowsSnoc(s[..i], s[i], mapped, cells);
      if !IsBlank(mapped(s[i])) {
        JoinAllSnoc(done, cells(s[i]));
        assert NonBlankRows(s[..i + 1], mapped, cells) == done + [cells(s[i])];
        assert lines + [Join(cells(s[i]))] == [Join(header)] + (JoinAll(done) + [Join(cells(s[i]))]);
        lines := lines + [Join(cells(s[i]))];
      } else {
        assert NonBlankRows(s[..i + 1], mapped, cells) == done + [];
        assert done + [] == done;
      }
    }
    assert s[..|s|] == s;
    var rows := [header] + NonBlankRows(s, mapped, cells);
    assert rows[0] == header && rows[1..] == NonBlankRows(s, mapped, cells);
  }

  // ---------------------------------------------------------------------------
  // read

  /** The loop of `read` over the rows after the header of one file: each row
      parsed and put under its unmapped name; `None` when a row does not
      parse, which ends the whole read. */
  function ReadRows<T>(acc: Table<T>, rows: seq<seq<string>>, parse: seq<string> -> Option<T>, name: T -> string)
    : Option<Table<T>>
    decreases |rows|
  {
    if rows == [] then Some(acc)
    else
      match parse(rows[0])
      case None => None
      case Some(e) => ReadRows(acc.Put(name(e), e), rows[1..], parse, name)
  }

  /** One file of `read`: the first row, the header, is skipped unread. */
  function ReadTable<T>(rows: seq<seq<string>>, parse: seq<string> -> Option<T>, name: T -> string)
    : Option<Table<T>>
  {
    if rows == [] then Some(Empty()) else ReadRows(Empty(), rows[1..], parse, name)
  }

  /** Each line of a file cut into its cells. */
  function SplitAll(lines: seq<string>): (rows: seq<seq<string>>)
    ensures |rows| == |lines|
  {
    if lines == [] then [] else [Split(lines[0])] + SplitAll(lines[1..])
  }

  ghost predicate CommaFree(rows: seq<seq<string>>) {
    forall i, k :: 0 <= i < |rows| && 0 <= k < |rows[i]| ==> ',' !in rows[i][k]
  }

  /** Lines written from rows without commas split back into those rows. */
  lemma {:induction false} SplitAllJoinAll(rows: seq<seq<string>>)
    requires forall i :: 0 <= i < |rows| ==> |rows[i]| >= 1
    requires CommaFree(rows)
    ensures SplitAll(JoinAll(rows)) == rows
    decreases |rows|
  {
    if rows != [] {
      SplitJoin(rows[0]);
      SplitAllJoinAll(rows[1..]);
      assert rows == [rows[0]] + rows[1..];
    }
  }

  /** Reading the rows `write` produced puts each entry with a non-blank mapped
      name back under its own name, in the written order. */
  lemma {:induction false} ReadNonBlankRows<T>(acc: Table<T>, s: seq<T>, parse: seq<string> -> Option<T>,
                                             name: T -> string, mapped: T -> string, cells: T -> seq<string>,
                                             keep: T -> bool, same: T -> T)
    requires forall x :: x in s && !IsBlank(mapped(x)) ==> parse(cells(x)) == Some(x)
    requires forall x :: keep(x) == !IsBlank(mapped(x))
    requires forall x :: same(x) == x
    ensures ReadRows(acc, NonBlankRows(s, mapped, cells), parse, name) == Some(PutAll(acc, s, name, keep, same))
    decreases |s|
  {
    if s != [] {
      assert forall x :: x in s[1..] ==> x in s;
      var rows := NonBlankRows(s, mapped, cells);
      if IsBlank(mapped(s[0])) {
        assert rows == NonBlankRows(s[1..], mapped, cells);
        ReadNonBlankRows(acc, s[1..], parse, name, mapped, cells, keep, same);
      } else {
        assert rows == [cells(s[0])] + NonBlankRows(s[1..], mapped, cells);
        assert rows[1..] == NonBlankRows(s[1..], mapped, cells);
        ReadNonBlankRows(acc.Put(name(s[0]), s[0]), s[1..], parse, name, mapped, cells, keep, same);
      }
    }
  }

  /** Every written row is the cells of an entry whose mapped name is not
      blank. */
  lemma {:induction false} NonBlankRowsCells<T>(s: seq<T>, mapped: T -> string, cells: T -> seq<string>)
    ensures forall row :: row in NonBlankRows(s, mapped, cells) ==>
              exists x :: x in s && !IsBlank(mapped(x)) && row == cells(x)
    decreases |s|
  {
    if s != [] {
      NonBlankRowsCells(s[1..], mapped, cells);
      assert forall x :: x in s[1..] ==> x in s;
    }
  }

  /** The entry under `k` if it has a mapped name that is not blank: what a
      written table shows of `k`. */
  function Visible<T>(t: Table<T>, mapped: T -> string, k: string): Option<T> {
    if k in t.vals && !IsBlank(mapped(t.vals[k])) then Some(t.vals[k]) else None
  }

  /** A table written by `write` and read back by `read` holds exactly the
      entries whose mapped name is not blank, each under its own name, as long
      as no cell written holds a comma. Entries with a blank mapped name are
      not written, so nothing is asked of them. */
  lemma TableRoundTrip<T>(t: Table<T>, sorted: seq<T>, header: seq<string>, name: T -> string, mapped: T -> string,
                          cells: T -> seq<string>, parse: seq<string> -> Option<T>)
    requires t.Valid() && KeyedBy(t, name)
    requires multiset(sorted) == multiset(t.Values())
    requires |header| >= 1 && forall k :: 0 <= k < |header| ==> ',' !in header[k]
    requires forall x :: x in t.Values() && !IsBlank(mapped(x)) ==> parse(cells(x)) == Some(x)
    requires forall x :: x in t.Values() && !IsBlank(mapped(x)) ==>
               |cells(x)| >= 1 && forall k :: 0 <= k < |cells(x)| ==> ',' !in cells(x)[k]
    ensures var r := ReadTable(SplitAll(JoinAll([header] + NonBlankRows(sorted, mapped, cells))), parse, name);
      && r.Some?
      && forall k :: r.value.Get(k) == Visible(t, mapped, k)
  {
    var vs := t.Values();
    assert forall x :: x in sorted <==> x in vs by {
      forall x ensures x in sorted <==> x in vs {
        assert x in sorted <==> x in multiset(sorted);
        assert x in vs <==> x in multiset(vs);
      }
    }
    var body := NonBlankRows(sorted, mapped, cells);
    var rows := [header] + body;
    NonBlankRowsCells(sorted, mapped, cells);
    forall i | 0 <= i < |rows| ensures |rows[i]| >= 1 && forall k :: 0 <= k < |rows[i]| ==> ',' !in rows[i][k] {
      if i > 0 {
        assert rows[i] in body;
      }
    }
    SplitAllJoinAll(rows);
    assert rows[1..] == body;
    var keep := (x: T) => !IsBlank(mapped(x));
    var same := (x: T) => x;
    ReadNonBlankRows(Empty(), sorted, parse, name, mapped, cells, keep, same);
    var r := PutAll(Empty(), sorted, name, keep, same);
    forall k ensures r.Get(k) == Visible(t, mapped, k) {
      assert forall x :: x in sorted && name(x) == k ==> k in t.vals && x == t.vals[k] by {
        forall x | x in sorted && name(x) == k ensures k in t.vals && x == t.vals[k] {
          var i :| 0 <= i < |vs| && vs[i] == x;
          assert t.keys[i] in t.vals;
        }
      }
      if k in t.vals && !IsBlank(mapped(t.vals[k])) {
        var i :| 0 <= i < |t.keys| && t.keys[i] == k;
        assert vs[i] == t.vals[k];
        PutAllGetHit(Empty(), sorted, name, keep, same, k, t.vals[k]);
      } else {
        PutAllGetMiss(Empty(), sorted, name, keep, same, k);
      }
    }
  }

  // ---------------------------------------------------------------------------
  // The dataset

  /** The value of the three tables of a `MappingExport`. */
  datatype ExportData = ExportData(methods: Table<MemberEntry>, fields: Table<MemberEntry>, params: Table<ParamEntry>) {
    ghost predicate Valid() {
      methods.Valid() && fields.Valid() && params.Valid()
    }
  }

  /** `read` over the rows of the methods, fields and params files, read in
      that order; `None` when any row of any of them does not parse. */
  function ReadExport(methodRows: seq<seq<string>>, fieldRows: seq<seq<string>>, paramRows: seq<seq<string>>)
    : Option<ExportData>
  {
    match ReadTable(methodRows, ParseMember, MemberName)
    case None => None
    case Some(m) =>
      match ReadTable(fieldRows, ParseMember, MemberName)
      case None => None
      case Some(f) =>
        match ReadTable(paramRows, ParseParam, ParamName)
        case None => None
        case Some(p) => Some(ExportData(m, f, p))
  }

  /** One table of a `write`: `lines` is what the file holds and `sorted` the
      sorted list it was written from. */
  ghost predicate WrittenAs<T>(t: Table<T>, header: seq<string>, name: T -> string, mapped: T -> string,
                              cells: T -> seq<string>, sorted: seq<T>, lines: seq<string>)
    requires t.Valid()
  {
    && SortedBy(sorted, name)
    && multiset(sorted) == multiset(t.Values())
    && lines == JoinAll([header] + NonBlankRows(sorted, mapped, cells))
  }

  /** `MappingExport`, with its three `LinkedHashMap` fields. */
  class MappingExport {
    var methods: Table<MemberEntry>
    var fields: Table<MemberEntry>
    var params: Table<ParamEntry>

    ghost predicate Valid()
      reads this
    {
      methods.Valid() && fields.Valid() && params.Valid()
    }

    function State(): ExportData
      reads this
    {
      ExportData(methods, fields, params)
    }

    constructor ()
      ensures Valid() && State() == ExportData(Empty(), Empty(), Empty())
    {
      methods, fields, params := Empty(), Empty(), Empty();
    }

    /** `addMethod` */
    method AddMethod(name: string, newEntry: MemberEntry)
      requires Valid()
      modifies this
      ensures Valid()
      ensures methods == old(methods).Put(name, newEntry) && fields == old(fields) && params == old(params)
    {
      methods := methods.Put(name, newEntry);
    }

    /** `addField` */
    method AddField(name: string, newEntry: MemberEntry)
      requires Valid()
      modifies this
      ensures Valid()
      ensures fields == old(fields).Put(name, newEntry) && methods == old(methods) && params == old(params)
    {
      fields := fields.Put(name, newEntry);
    }

    /** `addParam` */
    method AddParam(name: string, newEntry: ParamEntry)
      requires Valid()
      modifies this
      ensures Valid()
      ensures params == old(params).Put(name, newEntry) && methods == old(methods) && fields == old(fields)
    {
      params := params.Put(name, newEntry);
    }

    /** `hasMethod`, `hasField`, `hasParam`: whether the name was ever put,
        so whether it is among the names `write` considers. */
    predicate HasMethod(name: string)
      reads this
      ensures HasMethod(name) <==> GetMethod(name).Some?
      ensures Valid() ==> (HasMethod(name) <==> name in methods.keys)
    {
      methods.Has(name)
    }

    predicate HasField(name: string)
      reads this
      ensures HasField(name) <==> GetField(name).Some?
      ensures Valid() ==> (HasField(name) <==> name in fields.keys)
    {
      fields.Has(name)
    }

    predicate HasParam(name: string)
      reads this
      ensures HasParam(name) <==> GetParam(name).Some?
      ensures Valid() ==> (HasParam(name) <==> name in params.keys)
    {
      params.Has(name)
    }

    /** `getMethod`, `getField`, `getParam`; `None` is `null`. In an export
        keyed by name, as both tools fill it, the entry found carries the
        name it was asked for. */
    function GetMethod(name: string): (r: Option<MemberEntry>)
      reads this
      ensures r.Some? <==> name in methods.vals
      ensures r.Some? ==> r.value == methods.vals[name]
      ensures KeyedExport(State()) && r.Some? ==> r.value.unmappedName == name
    {
      methods.Get(name)
    }

    function GetField(name: string): (r: Option<MemberEntry>)
      reads this
      ensures r.Some? <==> name in fields.vals
      ensures r.Some? ==> r.value == fields.vals[name]
      ensures KeyedExport(State()) && r.Some? ==> r.value.unmappedName == name
    {
      fields.Get(name)
    }

    function GetParam(name: string): (r: Option<ParamEntry>)
      reads this
      ensures r.Some? <==> name in params.vals
      ensures r.Some? ==> r.value == params.vals[name]
      ensures KeyedExport(State()) && r.Some? ==> r.value.unmappedName == name
    {
      params.Get(name)
    }

    /** `write`, with the lines of `methods.csv`, `fields.csv` and `params.csv`
        handed back instead of going into a zip file. */
    method Write() returns (methodsCsv: seq<string>, fieldsCsv: seq<string>, paramsCsv: seq<string>,
                            ghost sortedMethods: seq<MemberEntry>, ghost sortedFields: seq<MemberEntry>,
                            ghost sortedParams: seq<ParamEntry>)
      requires Valid()
      ensures WrittenAs(methods, MethodsHeader, MemberName, MemberMapped, MemberCells, sortedMethods, methodsCsv)
      ensures WrittenAs(fields, FieldsHeader, MemberName, MemberMapped, MemberCells, sortedFields, fieldsCsv)
      ensures WrittenAs(params, ParamsHeader, ParamName, ParamMapped, ParamCells, sortedParams, paramsCsv)
      ensures |methodsCsv| == 1 + NonBlankCount(methods.Values(), MemberMapped) && methodsCsv[0] == Join(MethodsHeader)
      ensures |fieldsCsv| == 1 + NonBlankCount(fields.Values(), MemberMapped) && fieldsCsv[0] == Join(FieldsHeader)
      ensures |paramsCsv| == 1 + NonBlankCount(params.Values(), ParamMapped) && paramsCsv[0] == Join(ParamsHeader)
    {
      methodsCsv, sortedMethods := WriteTable(MethodsHeader, methods, MemberName, MemberMapped, MemberCells);
      fieldsCsv, sortedFields := WriteTable(FieldsHeader, fields, MemberName, MemberMapped, MemberCells);
      paramsCsv, sortedParams := WriteTable(ParamsHeader, params, ParamName, ParamMapped, ParamCells);
    }
  }

  /** The rows of one file after its header, as `readNext()` leaves them. */
  function AfterHeader(rows: seq<seq<string>>): seq<seq<string>> {
    if rows == [] then [] else rows[1..]
  }

  /** `read`, over the rows of the three files of the export. */
  method Read(methodRows: seq<seq<string>>, fieldRows: seq<seq<string>>, paramRows: seq<seq<string>>)
    returns (r: Option<MappingExport>)
    ensures r.None? <==> ReadExport(methodRows, fieldRows, paramRows).None?
    ensures r.Some? ==> && fresh(r.value) && r.value.Valid()
                        && ReadExport(methodRows, fieldRows, paramRows) == Some(r.value.State())
  {
    var mappings := new MappingExport();
    var rows := AfterHeader(methodRows);
    for i := 0 to |rows|
      invariant fresh(mappings) && mappings.Valid()
      invariant mappings.fields == Empty() && mappings.params == Empty()
      invariant ReadTable(methodRows, ParseMember, MemberName) == ReadRows(mappings.methods, rows[i..], ParseMember, MemberName)
    {
      assert rows[i..][0] == rows[i] && rows[i..][1..] == rows[i + 1..];
      var e := ParseMember(rows[i]);
      if e.None? {
        return None;
      }
      mappings.AddMethod(rows[i][0], e.value);
    }
    assert rows[|rows|..] == [];
    ghost var m := mappings.methods;
    rows := AfterHeader(fieldRows);
    for i := 0 to |rows|
      invariant fresh(mappings) && mappings.Valid()
      invariant mappings.methods == m && mappings.params == Empty()
      invariant ReadTable(fieldRows, ParseMember, MemberName) == ReadRows(mappings.fields, rows[i..], ParseMember, MemberName)
    {
      assert rows[i..][0] == rows[i] && rows[i..][1..] == rows[i + 1..];
      var e := ParseMember(rows[i]);
      if e.None? {
        return None;
      }
      mappings.AddField(rows[i][0], e.value);
    }
    assert rows[|rows|..] == [];
    ghost var f := mappings.fields;
    rows := AfterHeader(paramRows);
    for i := 0 to |rows|
      invariant fresh(mappings) && mappings.Valid()
      invariant mappings.methods == m && mappings.fields == f
      invariant ReadTable(paramRows, ParseParam, ParamName) == ReadRows(mappings.params, rows[i..], ParseParam, ParamName)
    {
      assert rows[i..][0] == rows[i] && rows[i..][1..] == rows[i + 1..];
      var e := ParseParam(rows[i]);
      if e.None? {
        return None;
      }
      mappings.AddParam(rows[i][0], e.value);
    }
    assert rows[|rows|..] == [];
    return Some(mappings);
  }

  // ---------------------------------------------------------------------------
  // Round trip of the whole export

  /** A cell the CSV writer emits as it is and the CSV reader takes back as it
      is: no separator, quote, escape or line break in it. */
  predicate PlainCell(c: string) {
    ',' !in c && '"' !in c && '\\' !in c && '\n' !in c && '\r' !in c
  }

  predicate PlainMember(e: MemberEntry) {
    PlainCell(e.unmappedName) && PlainCell(e.mappedName) && PlainCell(e.javadoc)
  }

  predicate PlainParam(e: ParamEntry) {
    PlainCell(e.unmappedName) && PlainCell(e.mappedName)
  }

  /** Every table valid and keyed by the unmapped names of its entries, as
      `GenerateMappingExport` fills them. */
  ghost predicate KeyedExport(d: ExportData) {
    && d.Valid()
    && KeyedBy(d.methods, MemberName) && KeyedBy(d.fields, MemberName) && KeyedBy(d.params, ParamName)
  }

  /** Rows written from plain entries carry no comma and parse back. */
  lemma MemberRows(vs: seq<MemberEntry>)
    requires forall x :: x in vs && !IsBlank(x.mappedName) ==> PlainMember(x)
    ensures forall x :: x in vs && !IsBlank(x.mappedName) ==> ParseMember(MemberCells(x)) == Some(x)
    ensures forall x :: x in vs && !IsBlank(x.mappedName) ==>
              |MemberCells(x)| >= 1 && forall k :: 0 <= k < |MemberCells(x)| ==> ',' !in MemberCells(x)[k]
  {
    forall x | x in vs && !IsBlank(x.mappedName)
      ensures ParseMember(MemberCells(x)) == Some(x)
      ensures |MemberCells(x)| >= 1 && forall k :: 0 <= k < |MemberCells(x)| ==> ',' !in MemberCells(x)[k]
    {
      MemberCellsParse(x);
    }
  }

  lemma ParamRows(vs: seq<ParamEntry>)
    requires forall x :: x in vs && !IsBlank(x.mappedName) ==> PlainParam(x)
    ensures forall x :: x in vs && !IsBlank(x.mappedName) ==> ParseParam(ParamCells(x)) == Some(x)
    ensures forall x :: x in vs && !IsBlank(x.mappedName) ==>
              |ParamCells(x)| >= 1 && forall k :: 0 <= k < |ParamCells(x)| ==> ',' !in ParamCells(x)[k]
  {
    forall x | x in vs && !IsBlank(x.mappedName)
      ensures ParseParam(ParamCells(x)) == Some(x)
      ensures |ParamCells(x)| >= 1 && forall k :: 0 <= k < |ParamCells(x)| ==> ',' !in ParamCells(x)[k]
    {
      ParamCellsParse(x);
    }
  }

  lemma MemberTableRoundTrip(t: Table<MemberEntry>, header: seq<string>, sorted: seq<MemberEntry>, lines: seq<string>)
    requires t.Valid() && KeyedBy(t, MemberName)
    requires header == MethodsHeader || header == FieldsHeader
    requires forall x :: x in t.Values() && !IsBlank(x.mappedName) ==> PlainMember(x)
    requires WrittenAs(t, header, MemberName, MemberMapped, MemberCells, sorted, lines)
    ensures var r := ReadTable(SplitAll(lines), ParseMember, MemberName);
      && r.Some?
      && forall k :: r.value.Get(k) == Visible(t, MemberMapped, k)
  {
    MemberRows(t.Values());
    TableRoundTrip(t, sorted, header, MemberName, MemberMapped, MemberCells, ParseMember);
  }

  lemma ParamTableRoundTrip(t: Table<ParamEntry>, sorted: seq<ParamEntry>, lines: seq<string>)
    requires t.Valid() && KeyedBy(t, ParamName)
    requires forall x :: x in t.Values() && !IsBlank(x.mappedName) ==> PlainParam(x)
    requires WrittenAs(t, ParamsHeader, ParamName, ParamMapped, ParamCells, sorted, lines)
    ensures var r := ReadTable(SplitAll(lines), ParseParam, ParamName);
      && r.Some?
      && forall k :: r.value.Get(k) == Visible(t, ParamMapped, k)
  {
    ParamRows(t.Values());
    TableRoundTrip(t, sorted, ParamsHeader, ParamName, ParamMapped, ParamCells, ParseParam);
  }

  /** What `write` puts in the three files, read back by `read`: the read
      succeeds, and every table holds exactly the entries whose mapped name is
      not blank, unchanged. */
  lemma ExportRoundTrip(d: ExportData, sortedMethods: seq<MemberEntry>, sortedFields: seq<MemberEntry>,
                        sortedParams: seq<ParamEntry>, methodsCsv: seq<string>, fieldsCsv: seq<string>,
                        paramsCsv: seq<string>)
    requires KeyedExport(d)
    requires forall x :: x in d.methods.Values() && !IsBlank(x.mappedName) ==> PlainMember(x)
    requires forall x :: x in d.fields.Values() && !IsBlank(x.mappedName) ==> PlainMember(x)
    requires forall x :: x in d.params.Values() && !IsBlank(x.mappedName) ==> PlainParam(x)
    requires WrittenAs(d.methods, MethodsHeader, MemberName, MemberMapped, MemberCells, sortedMethods, methodsCsv)
    requires WrittenAs(d.fields, FieldsHeader, MemberName, MemberMapped, MemberCells, sortedFields, fieldsCsv)
    requires WrittenAs(d.params, ParamsHeader, ParamName, ParamMapped, ParamCells, sortedParams, paramsCsv)
    ensures var r := ReadExport(SplitAll(methodsCsv), SplitAll(fieldsCsv), SplitAll(paramsCsv));
      && r.Some?
      && (forall k :: r.value.methods.Get(k) == Visible(d.methods, MemberMapped, k))
      && (forall k :: r.value.fields.Get(k) == Visible(d.fields, MemberMapped, k))
      && (forall k :: r.value.params.Get(k) == Visible(d.params, ParamMapped, k))
  {
    MemberTableRoundTrip(d.methods, MethodsHeader, sortedMethods, methodsCsv);
    MemberTableRoundTrip(d.fields, FieldsHeader, sortedFields, fieldsCsv);
    ParamTableRoundTrip(d.params, sortedParams, paramsCsv);
  }

  /** `write` orders names as strings, so a two-digit id sorts before a
      one-digit id whose first digit is larger. */
  lemma WriteOrderIsLexical()
    ensures LexLe("field_10_b", "field_2_a") && !LexLe("field_2_a", "field_10_b")
  {
    assert "field_10_b"[6..] == "10_b" && "field_2_a"[6..] == "2_a";
  }

  /** A table `read` builds holds every entry under its own name. */
  lemma {:induction false} ReadRowsKeyed<T>(acc: Table<T>, rows: seq<seq<string>>, parse: seq<string> -> Option<T>,
                                            name: T -> string)
    requires acc.Valid() && KeyedBy(acc, name)
    ensures var r := ReadRows(acc, rows, parse, name);
      r.Some? ==> r.value.Valid() && KeyedBy(r.value, name)
    decreases |rows|
  {
    if rows != [] {
      match parse(rows[0])
      case None =>
      case Some(e) =>
        var next := acc.Put(name(e), e);
        forall k | k in next.vals ensures name(next.vals[k]) == k {
          assert next.Get(k) == if k == name(e) then Some(e) else acc.Get(k);
        }
        ReadRowsKeyed(next, rows[1..], parse, name);
    }
  }

  /** Every export `read` returns has its three tables keyed by unmapped name. */
  lemma ReadExportKeyed(methodRows: seq<seq<string>>, fieldRows: seq<seq<string>>, paramRows: seq<seq<string>>)
    ensures var r := ReadExport(methodRows, fieldRows, paramRows);
      r.Some? ==> KeyedExport(r.value)
  {
    ReadRowsKeyed(Empty(), AfterHeader(methodRows), ParseMember, MemberName);
    ReadRowsKeyed(Empty(), AfterHeader(fieldRows), ParseMember, MemberName);
    ReadRowsKeyed(Empty(), AfterHeader(paramRows), ParseParam, ParamName);
  }
}
