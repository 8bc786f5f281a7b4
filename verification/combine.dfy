/** `CombineMappings`: the curated dataset laid over a base export. Curated
    entries are kept when validated (or when unvalidated ones are allowed);
    every name of the base export the curated dataset does not cover comes
    back as a validated placeholder entry. */
module Combine {
  import opened Wrappers
  import opened SrgPatterns
  import opened Tables
  import opened Spreadsheet
  import opened Export

  /** The test `entry.isValidated() || allowUnvalidated`. */
  function Keeper(allow: bool): Entry -> bool {
    (e: Entry) => e.validated || allow
  }

  /** The `new MappingSpreadsheet.Entry(true, placeholderClassName, ...)` made
      for a method or field of the base export. */
  function MemberPlaceholder(cls: string): MemberEntry -> Entry {
    (m: MemberEntry) => Entry(true, cls, m.unmappedName, m.mappedName, m.side, m.javadoc)
  }

  /** The placeholder made for a param of the base export, whose javadoc is
      empty. */
  function ParamPlaceholder(cls: string): ParamEntry -> Entry {
    (p: ParamEntry) => Entry(true, cls, p.unmappedName, p.mappedName, p.side, "")
  }

  /** The first loop over one curated table: the entries the test keeps, in
      their order, unchanged. */
  function Kept(curated: Table<Entry>, allow: bool): (r: Table<Entry>)
    requires curated.Valid() && KeyedBy(curated, UnmappedName)
    ensures r.Valid()
    ensures r.keys == KeysWhere(curated.keys, curated.vals, Keeper(allow))
    ensures forall k :: r.Get(k) == if k in curated.vals && (curated.vals[k].validated || allow)
                                    then Some(curated.vals[k]) else None
  {
    PutAllValues(curated, UnmappedName, Keeper(allow), Same);
    PutAll(Empty(), curated.Values(), UnmappedName, Keeper(allow), Same)
  }

  /** One output table: the kept curated entries, then a placeholder for each
      name of the base table not among them, in the base table's order. */
  function CombinedTable<V>(curated: Table<Entry>, allow: bool, base: Table<V>, name: V -> string,
                            placeholder: V -> Entry): (r: Table<Entry>)
    requires curated.Valid() && KeyedBy(curated, UnmappedName)
    requires base.Valid() && KeyedBy(base, name)
    ensures r.Valid()
    ensures r.keys == Kept(curated, allow).keys + KeysOutside(base.keys, Kept(curated, allow).vals)
    ensures forall k :: r.Get(k) == if k in curated.vals && (curated.vals[k].validated || allow) then Some(curated.vals[k])
                                    else if k in base.vals then Some(placeholder(base.vals[k]))
                                    else None
  {
    var kept := Kept(curated, allow);
    PutAbsentTable(kept, base, name, placeholder);
    assert forall k :: k in kept.vals <==> kept.Get(k).Some?;
    PutAbsent(kept, base.Values(), name, placeholder)
  }

  /** The dataset `act` writes. */
  function Combined(sh: Sheet, base: ExportData, cls: string, allow: bool): (r: Sheet)
    requires WellFormed(sh) && KeyedExport(base)
    ensures r.Valid()
  {
    KeyedTables(sh);
    Sheet(CombinedTable(sh.fields, allow, base.fields, MemberName, MemberPlaceholder(cls)),
          CombinedTable(sh.methods, allow, base.methods, MemberName, MemberPlaceholder(cls)),
          CombinedTable(sh.params, allow, base.params, ParamName, ParamPlaceholder(cls)))
  }

  /** The rows `act` writes: `None` when reading the curated file, reading the
      base export or writing throws. */
  function CombineOutput(spreadsheet: seq<seq<string>>, methodRows: seq<seq<string>>, fieldRows: seq<seq<string>>,
                         paramRows: seq<seq<string>>, cls: string, allow: bool): Option<seq<seq<string>>>
  {
    ReadWellFormed(EmptySheet, 0, spreadsheet);
    ReadExportKeyed(methodRows, fieldRows, paramRows);
    match ReadFrom(EmptySheet, 0, spreadsheet)
    case None => None
    case Some(sh) =>
      match ReadExport(methodRows, fieldRows, paramRows)
      case None => None
      case Some(base) => WriteRows(Combined(sh, base, cls, allow))
  }

  /** One of the first three loops of `act`: the entries of a curated table
      the test keeps, put into table `c` of `out`. */
  method KeepCurated(out: MappingSpreadsheet, c: Category, vs: seq<Entry>, allow: bool)
    requires out.Valid()
    modifies out
    ensures out.Valid()
    ensures out.State() == old(out.State()).With(c, PutAll(old(out.State().TableOf(c)), vs, UnmappedName, Keeper(allow), Same))
  {
    ghost var start := out.State();
    for i := 0 to |vs|
      invariant out.Valid()
      invariant out.State() == start.With(c, out.State().TableOf(c))
      invariant PutAll(start.TableOf(c), vs, UnmappedName, Keeper(allow), Same)
                == PutAll(out.State().TableOf(c), vs[i..], UnmappedName, Keeper(allow), Same)
    {
      assert vs[i..][0] == vs[i] && vs[i..][1..] == vs[i + 1..];
      if vs[i].validated || allow {
        out.Add(c, vs[i].unmappedName, vs[i]);
      }
    }
    assert vs[|vs|..] == [];
  }

  /** One of the last three loops of `act`: a placeholder put into table `c`
      of `out` for each entry of a base table whose name is not there yet. */
  method Backfill<V>(out: MappingSpreadsheet, c: Category, vs: seq<V>, name: V -> string, placeholder: V -> Entry)
    requires out.Valid()
    modifies out
    ensures out.Valid()
    ensures out.State() == old(out.State()).With(c, PutAbsent(old(out.State().TableOf(c)), vs, name, placeholder))
  {
    ghost var start := out.State();
    for i := 0 to |vs|
      invariant out.Valid()
      invariant out.State() == start.With(c, out.State().TableOf(c))
      invariant PutAbsent(start.TableOf(c), vs, name, placeholder)
                == PutAbsent(out.State().TableOf(c), vs[i..], name, placeholder)
    {
      assert vs[i..][0] == vs[i] && vs[i..][1..] == vs[i + 1..];
      if !out.Has(c, name(vs[i])) {
        out.Add(c, name(vs[i]), placeholder(vs[i]));
      }
    }
    assert vs[|vs|..] == [];
  }

  /** `act`, with the curated file and the three files of the base export
      given as their rows and the combined rows handed back. */
  method Act(spreadsheet: seq<seq<string>>, methodRows: seq<seq<string>>, fieldRows: seq<seq<string>>,
             paramRows: seq<seq<string>>, placeholderClassName: string, allowUnvalidated: bool)
    returns (r: Option<seq<seq<string>>>)
    ensures r == CombineOutput(spreadsheet, methodRows, fieldRows, paramRows, placeholderClassName, allowUnvalidated)
  {
    var read := Spreadsheet.Read(spreadsheet);
    if read.None? {
      return None;
    }
    var mappings := read.value;
    ghost var sh := mappings.State();
    ReadWellFormed(EmptySheet, 0, spreadsheet);
    KeyedTables(sh);
    var readBase := Export.Read(methodRows, fieldRows, paramRows);
    if readBase.None? {
      return None;
    }
    var baseExport := readBase.value;
    ghost var base := baseExport.State();
    ReadExportKeyed(methodRows, fieldRows, paramRows);
    var out := Merge(mappings, baseExport, placeholderClassName, allowUnvalidated);
    r := out.Write();
  }

  /** The six loops of `act`: the kept curated entries, then the
      placeholders, put into a new dataset. */
  method Merge(mappings: MappingSpreadsheet, baseExport: MappingExport, cls: string, allow: bool)
    returns (out: MappingSpreadsheet)
    requires mappings.Valid() && WellFormed(mappings.State())
    requires baseExport.Valid() && KeyedExport(baseExport.State())
    ensures fresh(out) && out.Valid()
    ensures out.State() == Combined(mappings.State(), baseExport.State(), cls, allow)
  {
    ghost var sh := mappings.State();
    ghost var base := baseExport.State();
    KeyedTables(sh);
    out := new MappingSpreadsheet();
    KeepCurated(out, Field, mappings.fields.Values(), allow);
    KeepCurated(out, Method, mappings.methods.Values(), allow);
    KeepCurated(out, Param, mappings.params.Values(), allow);
    assert out.State() == Sheet(Kept(sh.fields, allow), Kept(sh.methods, allow), Kept(sh.params, allow));
    Backfill(out, Field, baseExport.fields.Values(), MemberName, MemberPlaceholder(cls));
    Backfill(out, Method, baseExport.methods.Values(), MemberName, MemberPlaceholder(cls));
    Backfill(out, Param, baseExport.params.Values(), ParamName, ParamPlaceholder(cls));
    assert out.State().fields == CombinedTable(sh.fields, allow, base.fields, MemberName, MemberPlaceholder(cls));
    assert out.State().methods == CombinedTable(sh.methods, allow, base.methods, MemberName, MemberPlaceholder(cls));
    assert out.State().params == CombinedTable(sh.params, allow, base.params, ParamName, ParamPlaceholder(cls));
  }

  // ---------------------------------------------------------------------------
  // What the combination guarantees

  /** A name is in an output table exactly when a kept curated entry or the
      base table has it: the key set is the union of the two. */
  lemma CombinedKeySet<V>(curated: Table<Entry>, allow: bool, base: Table<V>, name: V -> string, placeholder: V -> Entry)
    requires curated.Valid() && KeyedBy(curated, UnmappedName)
    requires base.Valid() && KeyedBy(base, name)
    ensures forall k :: k in CombinedTable(curated, allow, base, name, placeholder).keys <==>
                        (k in curated.vals && (curated.vals[k].validated || allow)) || k in base.vals
  {
    var r := CombinedTable(curated, allow, base, name, placeholder);
    forall k ensures k in r.keys <==> (k in curated.vals && (curated.vals[k].validated || allow)) || k in base.vals {
      assert k in r.keys <==> r.Get(k).Some?;
    }
  }

  /** Without `allowUnvalidated` every output entry is validated: unvalidated
      curated entries are dropped, and placeholders are always validated. */
  lemma OnlyValidated(sh: Sheet, base: ExportData, cls: string)
    requires WellFormed(sh) && KeyedExport(base)
    ensures forall c, k :: Combined(sh, base, cls, false).TableOf(c).Get(k).Some? ==>
                           Combined(sh, base, cls, false).TableOf(c).Get(k).value.validated
  {
    var r := Combined(sh, base, cls, false);
    forall c, k | r.TableOf(c).Get(k).Some? ensures r.TableOf(c).Get(k).value.validated {
      match c
      case Field => assert r.TableOf(c) == r.fields;
      case Method => assert r.TableOf(c) == r.methods;
      case Param => assert r.TableOf(c) == r.params;
    }
  }

  /** With `allowUnvalidated` and an empty base export, the combination is the
      curated dataset itself, order included. */
  lemma CombineAllowAllNoBase(sh: Sheet, cls: string)
    requires WellFormed(sh)
    ensures Combined(sh, ExportData(Empty(), Empty(), Empty()), cls, true) == sh
  {
    var base := ExportData(Empty(), Empty(), Empty());
    var r := Combined(sh, base, cls, true);
    KeyedTables(sh);
    KeysWhereAll(sh.fields.keys, sh.fields.vals, Keeper(true));
    KeysWhereAll(sh.methods.keys, sh.methods.vals, Keeper(true));
    KeysWhereAll(sh.params.keys, sh.params.vals, Keeper(true));
    assert forall m: map<string, Entry> :: KeysOutside([], m) == [];
    TableExt(r.fields, sh.fields);
    TableExt(r.methods, sh.methods);
    TableExt(r.params, sh.params);
  }
}
