/** `GenerateMappingExport`: the curated dataset turned into an export, every
    entry copied whether validated or not. */
module GenerateExport {
  import opened Wrappers
  import opened Text
  import opened Tables
  import opened Spreadsheet
  import opened Export

  /** `new MappingExport.MemberEntry(...)` from a curated entry. */
  function ToMember(e: Entry): (m: MemberEntry)
    ensures MemberName(m) == e.unmappedName && MemberMapped(m) == e.mappedName
    ensures m.side == e.side && m.javadoc == e.javadocComment
  {
    MemberEntry(e.unmappedName, e.mappedName, e.side, e.javadocComment)
  }

  /** `new MappingExport.ParamEntry(...)` from a curated entry: the javadoc is
      dropped. */
  function ToParam(e: Entry): (p: ParamEntry)
    ensures ParamName(p) == e.unmappedName && ParamMapped(p) == e.mappedName
    ensures p.side == e.side
  {
    ParamEntry(e.unmappedName, e.mappedName, e.side)
  }

  /** What the copy of one curated table holds under `k`. */
  function Projected<W>(t: Table<Entry>, f: Entry -> W, k: string): Option<W> {
    if k in t.vals then Some(f(t.vals[k])) else None
  }

  /** Copying one table entry by entry, converting each, keeps the keys in
      order and converts every entry; no entry is left out. */
  lemma CopyConverted<W>(t: Table<Entry>, f: Entry -> W, name: W -> string)
    requires t.Valid() && KeyedBy(t, UnmappedName)
    requires forall e :: name(f(e)) == e.unmappedName
    ensures var r := PutAll(Empty(), t.Values(), UnmappedName, Always, f);
      && r.Valid() && KeyedBy(r, name)
      && r.keys == t.keys
      && forall k :: r.Get(k) == Projected(t, f, k)
  {
    var r := PutAll(Empty(), t.Values(), UnmappedName, Always, f);
    PutAllValues(t, UnmappedName, Always, f);
    KeysWhereAll(t.keys, t.vals, Always);
    forall k | k in r.vals ensures name(r.vals[k]) == k {
      assert r.Get(k) == Projected(t, f, k);
    }
  }

  /** The export the three loops of `act` build: every table copied in its
      own order, each entry converted. */
  function Converted(sh: Sheet): (d: ExportData)
    requires WellFormed(sh)
    ensures KeyedExport(d)
    ensures d.methods.keys == sh.methods.keys && d.fields.keys == sh.fields.keys && d.params.keys == sh.params.keys
    ensures forall k :: d.methods.Get(k) == Projected(sh.methods, ToMember, k)
    ensures forall k :: d.fields.Get(k) == Projected(sh.fields, ToMember, k)
    ensures forall k :: d.params.Get(k) == Projected(sh.params, ToParam, k)
  {
    KeyedTables(sh);
    CopyConverted(sh.methods, ToMember, MemberName);
    CopyConverted(sh.fields, ToMember, MemberName);
    CopyConverted(sh.params, ToParam, ParamName);
    ExportData(PutAll(Empty(), sh.methods.Values(), UnmappedName, Always, ToMember),
               PutAll(Empty(), sh.fields.Values(), UnmappedName, Always, ToMember),
               PutAll(Empty(), sh.params.Values(), UnmappedName, Always, ToParam))
  }

  /** The three files of an export. */
  datatype ExportFiles = ExportFiles(methodsCsv: seq<string>, fieldsCsv: seq<string>, paramsCsv: seq<string>)

  /** The first loop of `act`: every curated field put into the export. */
  method ProjectFields(out: MappingExport, vs: seq<Entry>)
    requires out.Valid()
    modifies out
    ensures out.Valid()
    ensures out.fields == PutAll(old(out.fields), vs, UnmappedName, Always, ToMember)
    ensures out.methods == old(out.methods) && out.params == old(out.params)
  {
    for i := 0 to |vs|
      invariant out.Valid()
      invariant out.methods == old(out.methods) && out.params == old(out.params)
      invariant PutAll(old(out.fields), vs, UnmappedName, Always, ToMember) == PutAll(out.fields, vs[i..], UnmappedName, Always, ToMember)
    {
      assert vs[i..][0] == vs[i] && vs[i..][1..] == vs[i + 1..];
      out.AddField(vs[i].unmappedName, ToMember(vs[i]));
    }
    assert vs[|vs|..] == [];
  }

  /** The second loop of `act`: every curated method put into the export. */
  method ProjectMethods(out: MappingExport, vs: seq<Entry>)
    requires out.Valid()
    modifies out
    ensures out.Valid()
    ensures out.methods == PutAll(old(out.methods), vs, UnmappedName, Always, ToMember)
    ensures out.fields == old(out.fields) && out.params == old(out.params)
  {
    for i := 0 to |vs|
      invariant out.Valid()
      invariant out.fields == old(out.fields) && out.params == old(out.params)
      invariant PutAll(old(out.methods), vs, UnmappedName, Always, ToMember) == PutAll(out.methods, vs[i..], UnmappedName, Always, ToMember)
    {
      assert vs[i..][0] == vs[i] && vs[i..][1..] == vs[i + 1..];
      out.AddMethod(vs[i].unmappedName, ToMember(vs[i]));
    }
    assert vs[|vs|..] == [];
  }

  /** The third loop of `act`: every curated param put into the export. */
  method ProjectParams(out: MappingExport, vs: seq<Entry>)
    requires out.Valid()
    modifies out
    ensures out.Valid()
    ensures out.params == PutAll(old(out.params), vs, UnmappedName, Always, ToParam)
    ensures out.methods == old(out.methods) && out.fields == old(out.fields)
  {
    for i := 0 to |vs|
      invariant out.Valid()
      invariant out.methods == old(out.methods) && out.fields == old(out.fields)
      invariant PutAll(old(out.params), vs, UnmappedName, Always, ToParam) == PutAll(out.params, vs[i..], UnmappedName, Always, ToParam)
    {
      assert vs[i..][0] == vs[i] && vs[i..][1..] == vs[i + 1..];
      out.AddParam(vs[i].unmappedName, ToParam(vs[i]));
    }
    assert vs[|vs|..] == [];
  }

  /** `act`, with the curated file given as its rows and the export handed
      back instead of going into a zip file; `None` when reading the curated
      file throws. */
  method Act(spreadsheet: seq<seq<string>>)
    returns (r: Option<ExportFiles>, ghost sheet: Sheet, ghost sortedMethods: seq<MemberEntry>,
             ghost sortedFields: seq<MemberEntry>, ghost sortedParams: seq<ParamEntry>)
    ensures r.None? <==> ReadFrom(EmptySheet, 0, spreadsheet).None?
    ensures r.Some? ==>
      && ReadFrom(EmptySheet, 0, spreadsheet) == Some(sheet) && WellFormed(sheet)
      && WrittenAs(Converted(sheet).methods, MethodsHeader, MemberName, MemberMapped, MemberCells,
                   sortedMethods, r.value.methodsCsv)
      && WrittenAs(Converted(sheet).fields, FieldsHeader, MemberName, MemberMapped, MemberCells,
                   sortedFields, r.value.fieldsCsv)
      && WrittenAs(Converted(sheet).params, ParamsHeader, ParamName, ParamMapped, ParamCells,
                   sortedParams, r.value.paramsCsv)
  {
    sheet, sortedMethods, sortedFields, sortedParams := EmptySheet, [], [], [];
    var read := Spreadsheet.Read(spreadsheet);
    if read.None? {
      return None, sheet, sortedMethods, sortedFields, sortedParams;
    }
    var mappings := read.value;
    sheet := mappings.State();
    ReadWellFormed(EmptySheet, 0, spreadsheet);
    var out := new MappingExport();
    ProjectFields(out, mappings.fields.Values());
    ProjectMethods(out, mappings.methods.Values());
    ProjectParams(out, mappings.params.Values());
    assert out.State() == Converted(sheet);
    var methodsCsv, fieldsCsv, paramsCsv;
    methodsCsv, fieldsCsv, paramsCsv, sortedMethods, sortedFields, sortedParams := out.Write();
    r := Some(ExportFiles(methodsCsv, fieldsCsv, paramsCsv));
  }

  /** An exported entry that is either not written or written as it is. */
  predicate WrittenPlainMember(x: MemberEntry) {
    !IsBlank(x.mappedName) ==> PlainMember(x)
  }

  predicate WrittenPlainParam(x: ParamEntry) {
    !IsBlank(x.mappedName) ==> PlainParam(x)
  }

  /** A property of every converted entry holds of every value of the copy. */
  lemma ConvertedValues<W>(t: Table<Entry>, r: Table<W>, f: Entry -> W, p: W -> bool)
    requires t.Valid() && r.Valid()
    requires forall k :: r.Get(k) == Projected(t, f, k)
    requires forall e :: e in t.Values() ==> p(f(e))
    ensures forall x :: x in r.Values() ==> p(x)
  {
    forall x | x in r.Values() ensures p(x) {
      var i :| 0 <= i < |r.keys| && r.Values()[i] == x;
      var k := r.keys[i];
      assert r.Get(k) == Projected(t, f, k);
      var j :| 0 <= j < |t.keys| && t.keys[j] == k;
      assert t.Values()[j] == t.vals[k];
    }
  }

  /** What `act` exports, read back by `MappingExport.read`: the read
      succeeds, and each table holds, under each unmapped name of the curated
      table, the converted entry exactly when its mapped name is not blank,
      validated or not. */
  lemma GenerateRoundTrip(sheet: Sheet, files: ExportFiles, sortedMethods: seq<MemberEntry>,
                          sortedFields: seq<MemberEntry>, sortedParams: seq<ParamEntry>)
    requires WellFormed(sheet)
    requires forall e :: e in sheet.methods.Values() && !IsBlank(e.mappedName) ==> PlainMember(ToMember(e))
    requires forall e :: e in sheet.fields.Values() && !IsBlank(e.mappedName) ==> PlainMember(ToMember(e))
    requires forall e :: e in sheet.params.Values() && !IsBlank(e.mappedName) ==> PlainParam(ToParam(e))
    requires WrittenAs(Converted(sheet).methods, MethodsHeader, MemberName, MemberMapped, MemberCells,
                       sortedMethods, files.methodsCsv)
    requires WrittenAs(Converted(sheet).fields, FieldsHeader, MemberName, MemberMapped, MemberCells,
                       sortedFields, files.fieldsCsv)
    requires WrittenAs(Converted(sheet).params, ParamsHeader, ParamName, ParamMapped, ParamCells,
                       sortedParams, files.paramsCsv)
    ensures var r := ReadExport(SplitAll(files.methodsCsv), SplitAll(files.fieldsCsv), SplitAll(files.paramsCsv));
      && r.Some?
      && (forall k :: r.value.methods.Get(k) ==
            if k in sheet.methods.vals && !IsBlank(sheet.methods.vals[k].mappedName)
            then Some(ToMember(sheet.methods.vals[k])) else None)
      && (forall k :: r.value.fields.Get(k) ==
            if k in sheet.fields.vals && !IsBlank(sheet.fields.vals[k].mappedName)
            then Some(ToMember(sheet.fields.vals[k])) else None)
      && (forall k :: r.value.params.Get(k) ==
            if k in sheet.params.vals && !IsBlank(sheet.params.vals[k].mappedName)
            then Some(ToParam(sheet.params.vals[k])) else None)
  {
    var d := Converted(sheet);
    ConvertedValues(sheet.methods, d.methods, ToMember, WrittenPlainMember);
    ConvertedValues(sheet.fields, d.fields, ToMember, WrittenPlainMember);
    ConvertedValues(sheet.params, d.params, ToParam, WrittenPlainParam);
    ExportRoundTrip(d, sortedMethods, sortedFields, sortedParams, files.methodsCsv, files.fieldsCsv, files.paramsCsv);
    forall k ensures Visible(d.methods, MemberMapped, k) ==
                     if k in sheet.methods.vals && !IsBlank(sheet.methods.vals[k].mappedName)
                     then Some(ToMember(sheet.methods.vals[k])) else None
    {
      assert d.methods.Get(k) == Projected(sheet.methods, ToMember, k);
    }
    forall k ensures Visible(d.fields, MemberMapped, k) ==
                     if k in sheet.fields.vals && !IsBlank(sheet.fields.vals[k].mappedName)
                     then Some(ToMember(sheet.fields.vals[k])) else None
    {
      assert d.fields.Get(k) == Projected(sheet.fields, ToMember, k);
    }
    forall k ensures Visible(d.params, ParamMapped, k) ==
                     if k in sheet.params.vals && !IsBlank(sheet.params.vals[k].mappedName)
                     then Some(ToParam(sheet.params.vals[k])) else None
    {
      assert d.params.Get(k) == Projected(sheet.params, ToParam, k);
    }
  }
}
