# MappingsExports, modelled in Dafny

MappingsExports keeps a renaming dataset for obfuscated Java identifiers in two
forms and converts between them:

- the **curated spreadsheet** (`MappingSpreadsheet`): a CSV file of six-column
  rows (validated flag, class name, unmapped name, mapped name, side, javadoc).
  It is read into three insertion-ordered tables (fields, methods, params)
  keyed by unmapped name. Each row goes to the table whose pattern
  (`func_N_x`, `field_N_x`, `p_iN_M`) its unmapped name matches;
- the **export** (`MappingExport`): three CSV files (`methods.csv`,
  `fields.csv`, `params.csv`) holding `MemberEntry` and `ParamEntry` values.
  They are written sorted by unmapped name, without entries whose mapped name
  is blank;
- `GenerateMappingExport` projects the curated dataset into an export;
- `CombineMappings` keeps the validated curated entries, or all of them when
  unvalidated entries are allowed. It then back-fills a validated placeholder
  for every name of a base export that is still missing.

The model keeps the source's shape:

- `LinkedHashMap` is `Tables.Table`, a key sequence plus a map. `put` on an
  existing key replaces the value and keeps the key's position.
- The two dataset classes are Dafny classes whose `add*` methods reassign
  those fields.
- Every loop of `read`, `write` and `act` is a loop. Each is proved against a
  function that states the whole result: `ReadFrom`, `WriteRows`,
  `ReadExport`, `Converted`, `CombineOutput`.
- The export sort is an insertion sort on an array, proved sorted and a
  permutation.
- The four regular expressions are hand-written recognisers. The three
  full-match patterns are proved equal to the languages read off them. The
  `SRG_NUMBER` search is proved to return the group of the first match, as
  `Matcher.find()` chooses it: the leftmost start, then the longest `\w+`.

Files: `wrappers.dfy` (Option), `text.dfy` (digits, `Integer.parseInt`,
`isBlank`, `String.compareTo`, `String.join`, comma splitting), `side.dfy`,
`srg_patterns.dfy`, `tables.dfy`, `spreadsheet.dfy`, `export.dfy`,
`generate_export.dfy`, `combine.dfy`.

Behaviour of the code worth knowing:

- The numeric id that `compareTo` extracts comes from the first run of word
  characters that holds a `_` (or `_i`) followed by a digit. Within that run
  it is the digit run after the *last* such mark, because `\w+` in
  `SRG_NUMBER` is greedy but cannot leave the run. So `p_i123_4` gives 4,
  while `a_1.b_2` gives 1. Every name `read` stores is made of word
  characters only, so for those names the id follows the last mark.
- The export writer omits entries whose mapped name is *blank* (`isBlank`:
  empty or whitespace only).
- An out-of-range side value in the spreadsheet is not caught by `read`, so
  the whole read fails. A side value that is not an integer only skips its
  row.

## Model

| member | source | states |
|---|---|---|
| Sides.ToNumber | buildSrc/src/main/java/Side.java:10-12 | the code of a side is its position in the declaration order CLIENT, SERVER, BOTH |
| Sides.From | buildSrc/src/main/java/Side.java:6-8 | `from(n)` succeeds exactly for 0 ≤ n ≤ 2, and its side has code n |
| Sides.FromTable | buildSrc/src/main/java/Side.java:1-8 | `from` maps 0, 1, 2 to CLIENT, SERVER, BOTH |
| Sides.FromToNumber | buildSrc/src/main/java/Side.java:6-12 | `from(toNumber(s)) == s` for every side |
| Sides.ToNumberFrom | buildSrc/src/main/java/Side.java:6-12 | `toNumber(from(n)) == n` for 0 ≤ n ≤ 2 |
| Sides.Code | buildSrc/src/main/java/MappingSpreadsheet.java:135 | the written side cell is one character, not blank, comma-free, and `parseInt` gives the code back |
| Sides.CodeRoundTrip | buildSrc/src/main/java/MappingSpreadsheet.java:214-217 | reading a written side cell gives the same side |
| Text.ParseInt | buildSrc/src/main/java/MappingSpreadsheet.java:217 | `Integer.parseInt`: succeeds only on an optional sign and at least one digit, always within the 32-bit range; on digits with or without a sign it is their decimal value, negated after `-`, exactly when that fits |
| Text.SignedExamples | buildSrc/src/main/java/MappingSpreadsheet.java:217 | `+2` is 2, `-1` is -1, `-0` is 0; `-2147483648` and `2147483647` are the range's ends; one past either end, a lone sign, the empty string and `1-` fail |
| Text.LexLeTotal | buildSrc/src/main/java/MappingExport.java:159 | the string order of the export sort compares any two names |
| Text.LexLeAntisymmetric | buildSrc/src/main/java/MappingExport.java:159 | two names each at most the other are equal |
| Text.LexLeTransitive | buildSrc/src/main/java/MappingExport.java:159 | the string order is transitive |
| Text.LexLe | buildSrc/src/main/java/MappingExport.java:159 | the string order extends the prefix order, and a name below one of its prefixes is that prefix |
| Text.Join | buildSrc/src/main/java/MappingExport.java:155-166 | `String.join(",", …)` keeps every character of every cell, adds only commas, and holds a comma once there are two cells |
| Text.BlankExamples | buildSrc/src/main/java/MappingExport.java:162 | `isBlank` holds for the empty string, spaces, tab, newline and the ideographic space, and fails for the no-break spaces U+00A0 and U+202F and for every string that holds a letter, a digit or `_` (`a` and ` a ` among them) |
| Text.Split | buildSrc/src/main/java/MappingExport.java:217-220 | a line read back has at least one cell and no cell holds a comma |
| Text.SplitJoin | buildSrc/src/main/java/MappingExport.java:163-166 | a row joined with `,` splits back into the same cells when no cell holds a comma |
| SrgPatterns.MemberSrgExact | buildSrc/src/main/java/MappingSpreadsheet.java:22-23 | the method and field recognisers accept exactly the full-string language of `func_\d+_\w+_?` and `field_\d+_\w+_?` |
| SrgPatterns.ParamSrgExact | buildSrc/src/main/java/MappingSpreadsheet.java:24 | the param recogniser accepts exactly the language of `p_i?\d+_\d+_?` |
| SrgPatterns.PatternsDisjoint | buildSrc/src/main/java/MappingSpreadsheet.java:22-24 | no name matches two of the patterns |
| SrgPatterns.Classify | buildSrc/src/main/java/MappingSpreadsheet.java:224-232 | the category chosen is one whose pattern matches; none is chosen only when no pattern matches |
| SrgPatterns.ClassifyExact | buildSrc/src/main/java/MappingSpreadsheet.java:224-232 | a name is classified as `c` exactly when it matches `c`'s pattern |
| SrgPatterns.SrgNumber | buildSrc/src/main/java/MappingSpreadsheet.java:142-145 | the id `compareTo` extracts, when there is one, lies in 0..2147483647 |
| SrgPatterns.MemberSrgNumber | buildSrc/src/main/java/MappingSpreadsheet.java:25 | for a method or field name with no id mark after its first digit run, the id is that run |
| SrgPatterns.ParamSrgNumber | buildSrc/src/main/java/MappingSpreadsheet.java:25 | for a param name the id is the second digit run, the one after the last mark |
| SrgPatterns.MethodNumberExample | buildSrc/src/main/java/MappingSpreadsheet.java:25 | `func_123_abc` has id 123 |
| SrgPatterns.ParamNumberExample | buildSrc/src/main/java/MappingSpreadsheet.java:25 | `p_i123_4` has id 4, not 123 |
| SrgPatterns.FindGroupFrom | buildSrc/src/main/java/MappingSpreadsheet.java:25 | the group a search finds is a non-empty run of digits |
| SrgPatterns.FindGroupFromExact | buildSrc/src/main/java/MappingSpreadsheet.java:25 | searching from a position before which nothing matches finds nothing exactly when `\w+_i?(\d+).*` matches nowhere, and otherwise finds the group of the first match (leftmost start, longest `\w+`) |
| SrgPatterns.SrgNumberExact | buildSrc/src/main/java/MappingSpreadsheet.java:25 | `find()` fails exactly when the pattern matches at no position; otherwise the id is `parseInt` of the group of the first match |
| SrgPatterns.MatchedNameHasGroup | buildSrc/src/main/java/MappingSpreadsheet.java:22-25 | every name matching one of the three entry patterns has an id group, so `matcher.group(1)` never fails on a name `read` stored |
| SrgPatterns.NonWordStopsExample | buildSrc/src/main/java/MappingSpreadsheet.java:25 | `a_1.b_2` has id 1: the search stays in the first word run that holds a mark |
| SrgPatterns.NoNumberExample | buildSrc/src/main/java/MappingSpreadsheet.java:142-145 | `abc` has no id, so `matcher.group(1)` fails |
| Tables.Table.Put | buildSrc/src/main/java/MappingSpreadsheet.java:34-44 | `put`: the key maps to the new value and other keys are unchanged; an existing key keeps its position and a new key goes last; distinct keys are preserved |
| Tables.Table.Values | buildSrc/src/main/java/MappingSpreadsheet.java:163 | `values()` lists the value of each key in insertion order |
| Tables.Empty | buildSrc/src/main/java/MappingSpreadsheet.java:27-29 | a new table is valid and has no keys |
| Tables.PutAllValues | buildSrc/src/main/java/GenerateMappingExport.java:28-41 | copying a table value by value with a filter and a conversion keeps the selected keys in their order, each holding its converted value |
| Tables.PutAbsentTable | buildSrc/src/main/java/CombineMappings.java:50-70 | back-filling never changes a key already present; it appends the missing keys of the other table in that table's order, each holding the converted value |
| Spreadsheet.BoolCell | buildSrc/src/main/java/MappingSpreadsheet.java:131 | the validated cell is `"TRUE"` exactly when the flag is set |
| Spreadsheet.ToCsvLine | buildSrc/src/main/java/MappingSpreadsheet.java:129-138 | six cells: flag, class, unmapped, mapped, side code (which parses back to the side), javadoc |
| Spreadsheet.CompareTo | buildSrc/src/main/java/MappingSpreadsheet.java:141-150 | defined exactly when both names have an id; the result then stays within the `int` range (both ids are non-negative, so `a1 - a2` cannot wrap), is zero exactly on equal ids and negative exactly when the first id is smaller |
| Spreadsheet.CompareToAntisymmetric | buildSrc/src/main/java/MappingSpreadsheet.java:141-150 | `compare(a, b) == -compare(b, a)`, each defined when the other is |
| Spreadsheet.NumberOfFunc2 | buildSrc/src/main/java/MappingSpreadsheet.java:142-145 | `func_2_x` has id 2 |
| Spreadsheet.NumberOfFunc10 | buildSrc/src/main/java/MappingSpreadsheet.java:142-145 | `func_10_y` has id 10 |
| Spreadsheet.LexicalOrderExample | buildSrc/src/main/java/MappingExport.java:159 | as strings, `func_10_y` sorts strictly before `func_2_x` |
| Spreadsheet.NaturalOrderExample | buildSrc/src/main/java/MappingSpreadsheet.java:141-150 | the natural order puts `func_2_x` first, which is the opposite of the string order |
| Spreadsheet.Sheet.Add | buildSrc/src/main/java/MappingSpreadsheet.java:34-44 | `add*` on a dataset: the name maps to the entry, other names and the other two tables are unchanged, validity is kept; an existing name keeps its position and a new name goes last |
| Spreadsheet.MappingSpreadsheet.Add | buildSrc/src/main/java/MappingSpreadsheet.java:34-44 | `addMethod`/`addField`/`addParam` change the object's state exactly as `Sheet.Add` |
| Spreadsheet.MappingSpreadsheet.Has | buildSrc/src/main/java/MappingSpreadsheet.java:46-56 | `hasMethod`/`hasField`/`hasParam` hold exactly when `get*` finds an entry, which is exactly when the name is among the table's keys |
| Spreadsheet.MappingSpreadsheet.Get | buildSrc/src/main/java/MappingSpreadsheet.java:58-68 | `getMethod`/`getField`/`getParam` find an entry exactly when the name is stored and return the stored entry; in a dataset `read` built, that entry carries the name and the name matches the table's pattern |
| Spreadsheet.MappingSpreadsheet.Write | buildSrc/src/main/java/MappingSpreadsheet.java:153-175 | the rows written are `WriteRows` of the state: the header, then fields, methods and params, each in insertion order; the write fails when the dead sort throws |
| Spreadsheet.DeadSortOnlyOnOverflow | buildSrc/src/main/java/MappingSpreadsheet.java:141-159 | in a dataset `read` built, the unused sort can throw only when some stored name's id group does not fit in an `int` |
| Spreadsheet.StoredNameMatches | buildSrc/src/main/java/MappingSpreadsheet.java:142-145 | every stored name of a dataset `read` built has an id group |
| Spreadsheet.AppendRows | buildSrc/src/main/java/MappingSpreadsheet.java:163-173 | one writing loop appends the CSV line of every value of a table, in order |
| Spreadsheet.ParseRow | buildSrc/src/main/java/MappingSpreadsheet.java:199-232 | a row is skipped exactly when its length is not 6, it is row 0, its side is not an integer, or its name matches no pattern; the read aborts exactly on an integer side outside 0..2; otherwise the entry holds the six cells (validated iff cell 0 is `"TRUE"`) in the category its name selects |
| Spreadsheet.SignedSideCells | buildSrc/src/main/java/MappingSpreadsheet.java:214-226 | a data row with side `-1` aborts the read; `+2` inserts with side BOTH and `-0` with CLIENT when the name matches; `2147483648` only skips the row |
| Spreadsheet.Read | buildSrc/src/main/java/MappingSpreadsheet.java:193-234 | the row loop fails exactly when `ReadFrom` does, and otherwise builds a fresh object whose state is `ReadFrom` of the rows |
| Spreadsheet.AddWellFormed | buildSrc/src/main/java/MappingSpreadsheet.java:223-232 | adding an entry under its own name to the table its name matches keeps every entry keyed by its name in the right table |
| Spreadsheet.ReadWellFormed | buildSrc/src/main/java/MappingSpreadsheet.java:193-234 | every dataset `read` returns has each entry under its own unmapped name, in the one table whose pattern that name matches |
| Spreadsheet.CsvLineRoundTrip | buildSrc/src/main/java/MappingSpreadsheet.java:206-229 | a row made by `toCSVLine` reads back, at any row but the first, as the same entry in the category of its name |
| Spreadsheet.WriteReadRoundTrip | buildSrc/src/main/java/MappingSpreadsheet.java:153-233 | when `write` succeeds, reading back the rows of cells it wrote gives the same dataset, with the same iteration order |
| Export.MemberCells | buildSrc/src/main/java/MappingExport.java:163-166 | a method or field row is unmapped, mapped, side code and javadoc |
| Export.ParamCells | buildSrc/src/main/java/MappingExport.java:201-203 | a param row is unmapped, mapped and side code |
| Export.ParseMember | buildSrc/src/main/java/MappingExport.java:222 | a row parses exactly when it has at least 4 cells and an integer side in 0..2; the entry takes cells 0, 1 and 3 and that side |
| Export.ParseParam | buildSrc/src/main/java/MappingExport.java:245 | a row parses exactly when it has at least 3 cells and an integer side in 0..2 |
| Export.MemberCellsParse | buildSrc/src/main/java/MappingExport.java:222 | a written member row parses back as the same entry |
| Export.ParamCellsParse | buildSrc/src/main/java/MappingExport.java:245 | a written param row parses back as the same entry |
| Export.SortByName | buildSrc/src/main/java/MappingExport.java:158-159 | the sort leaves the array in ascending string order of unmapped names, as a permutation of its contents |
| Export.WriteTable | buildSrc/src/main/java/MappingExport.java:154-169 | one file holds the header line, then one `,`-joined line per entry with a non-blank mapped name, taken from a sorted permutation of the table's values; so the file has exactly one line more than the table has non-blank entries |
| Export.NonBlankCountPermutation | buildSrc/src/main/java/MappingExport.java:154-169 | the number of entries with a non-blank mapped name is the same in any permutation of the values, so sorting does not change how many lines are written |
| Export.EmitRows | buildSrc/src/main/java/MappingExport.java:155-169 | the writing loop emits the header and the rows of the non-blank entries, in order |
| Export.MappingExport.AddMethod | buildSrc/src/main/java/MappingExport.java:40-42 | `put` into the methods table; the other tables are unchanged |
| Export.MappingExport.AddField | buildSrc/src/main/java/MappingExport.java:44-46 | `put` into the fields table; the other tables are unchanged |
| Export.MappingExport.AddParam | buildSrc/src/main/java/MappingExport.java:48-50 | `put` into the params table; the other tables are unchanged |
| Export.MappingExport.HasMethod | buildSrc/src/main/java/MappingExport.java:52-54 | `hasMethod` holds exactly when `getMethod` finds an entry, which is exactly when the name is a key of the methods table |
| Export.MappingExport.HasField | buildSrc/src/main/java/MappingExport.java:56-58 | the same for the fields table |
| Export.MappingExport.HasParam | buildSrc/src/main/java/MappingExport.java:60-62 | the same for the params table |
| Export.MappingExport.GetMethod | buildSrc/src/main/java/MappingExport.java:64-66 | `getMethod` finds an entry exactly when the name is stored and returns the stored entry; in an export `read` built, that entry carries the name |
| Export.MappingExport.GetField | buildSrc/src/main/java/MappingExport.java:68-70 | the same for the fields table |
| Export.MappingExport.GetParam | buildSrc/src/main/java/MappingExport.java:72-74 | the same for the params table |
| Export.MappingExport.Write | buildSrc/src/main/java/MappingExport.java:150-209 | each of the three files is written as `WriteTable` states, with its own header: its first line is that header and it has one line per table entry whose mapped name is not blank |
| Export.Read | buildSrc/src/main/java/MappingExport.java:211-256 | the three row loops fail exactly when `ReadExport` does (any bad row in any file); otherwise the fresh object's state is `ReadExport` of the rows |
| Export.ReadExportKeyed | buildSrc/src/main/java/MappingExport.java:217-249 | every export `read` returns has each entry stored under its own unmapped name |
| Export.SplitAllJoinAll | buildSrc/src/main/java/MappingExport.java:155-220 | lines written from comma-free rows split back into those rows |
| Export.ReadNonBlankRows | buildSrc/src/main/java/MappingExport.java:161-223 | reading the rows written for a list of entries puts every non-blank entry under its name, in list order |
| Export.TableRoundTrip | buildSrc/src/main/java/MappingExport.java:154-226 | a table written and read back holds, under each name, the original entry exactly when its mapped name is not blank |
| Export.MemberTableRoundTrip | buildSrc/src/main/java/MappingExport.java:154-238 | the same for the methods and fields files, when every cell of every entry that is written is plain |
| Export.ParamTableRoundTrip | buildSrc/src/main/java/MappingExport.java:192-249 | the same for the params file |
| Export.ExportRoundTrip | buildSrc/src/main/java/MappingExport.java:150-256 | `write` then `read` succeeds and gives, in every table, exactly the entries with non-blank mapped names, unchanged, when the cells of every entry written are plain |
| Export.WriteOrderIsLexical | buildSrc/src/main/java/MappingExport.java:159 | `field_10_b` sorts strictly before `field_2_a` |
| GenerateExport.ToMember | buildSrc/src/main/java/GenerateMappingExport.java:29-30 | a member entry keeps the unmapped name, mapped name, side and javadoc |
| GenerateExport.ToParam | buildSrc/src/main/java/GenerateMappingExport.java:39-40 | a param entry keeps the unmapped name, mapped name and side; the javadoc is dropped |
| GenerateExport.CopyConverted | buildSrc/src/main/java/GenerateMappingExport.java:28-41 | one projection loop keeps exactly the curated keys in their order, each holding its converted entry, with no filter on the flag |
| GenerateExport.Converted | buildSrc/src/main/java/GenerateMappingExport.java:28-41 | the projected export has, per category, the curated table's keys in order, each mapped to its converted entry |
| GenerateExport.ProjectFields | buildSrc/src/main/java/GenerateMappingExport.java:28-31 | the fields loop puts every curated field, converted, into the export's fields and nothing else |
| GenerateExport.ProjectMethods | buildSrc/src/main/java/GenerateMappingExport.java:33-36 | the same for methods |
| GenerateExport.ProjectParams | buildSrc/src/main/java/GenerateMappingExport.java:38-41 | the same for params, dropping the javadoc |
| GenerateExport.Act | buildSrc/src/main/java/GenerateMappingExport.java:25-43 | fails exactly when reading the spreadsheet fails; otherwise writes the three files of `Converted` of what was read |
| GenerateExport.GenerateRoundTrip | buildSrc/src/main/java/GenerateMappingExport.java:28-43 | reading back the generated export gives, under each curated name, the converted entry exactly when its mapped name is not blank, validated or not; only the cells that are written (non-blank entries, the param's three cells) must be plain |
| Combine.Kept | buildSrc/src/main/java/CombineMappings.java:32-48 | a filter loop keeps, in curated order and unchanged, exactly the entries that are validated or allowed |
| Combine.CombinedTable | buildSrc/src/main/java/CombineMappings.java:32-70 | an output table lists the kept keys, then the base keys not among them in base order; each holds the kept entry, else the placeholder built from the base entry |
| Combine.KeepCurated | buildSrc/src/main/java/CombineMappings.java:32-48 | one filter loop changes only its own table, as `Kept` states |
| Combine.Backfill | buildSrc/src/main/java/CombineMappings.java:50-70 | one back-fill loop changes only its own table, putting placeholders only under absent names |
| Combine.Merge | buildSrc/src/main/java/CombineMappings.java:32-70 | the filter and back-fill loops leave a fresh dataset whose state is `Combined` of the curated dataset and the base export |
| Combine.Act | buildSrc/src/main/java/CombineMappings.java:28-72 | the rows written are `CombineOutput`; it fails when either read fails or the write throws |
| Combine.CombinedKeySet | buildSrc/src/main/java/CombineMappings.java:32-70 | a name is in an output table exactly when it is a kept curated name or a base name of the same category |
| Combine.OnlyValidated | buildSrc/src/main/java/CombineMappings.java:33-67 | without `allowUnvalidated` every output entry is validated |
| Combine.CombineAllowAllNoBase | buildSrc/src/main/java/CombineMappings.java:32-48 | with `allowUnvalidated` and an empty base export the output is the curated dataset itself |

## Left out

- Gradle plumbing is not modelled: task fields, deleting the output, creating
  directories and the logger.
- File and zip-filesystem I/O is not modelled, including the
  spreadsheet-exists check. The spreadsheet is given as its rows of cells,
  and an export as the rows of its three files. The writers hand back rows or
  lines.
- opencsv is modelled only partly:
  - `CSVReader` and `CSVWriter` quoting and escaping are not modelled.
  - Reading a line is a split on `,`. That is what opencsv does for cells
    without a separator, quote, escape or line break. The export round trip
    requires such plain cells (`Export.PlainCell`).
  - The spreadsheet writer's rows are modelled as cell lists, not as quoted
    text.
- Spreadsheet.WriteReadRoundTrip: is stated on rows of cells, not on CSV
  text. `CSVWriter` escapes with `"`, but `CSVReader` takes `\` as its
  escape, so in the real files a cell holding `\` need not read back
  unchanged.
- `System.err` diagnostics are left out. A skipped spreadsheet row only
  records why it was skipped (`Spreadsheet.Skip`).
- Text.ParseInt: accepts only ASCII digits. Java's `Integer.parseInt` also
  accepts other Unicode decimal digits.
- Text.LexLe: compares code points. `String.compareTo` compares UTF-16 code
  units. The two differ only between supplementary characters and
  U+E000..U+FFFF.
- Spreadsheet.MappingSpreadsheet.Write: the sort of the unused list is
  modelled only by its observable effect (`DeadSortThrows`). With two or
  more entries, the sort throws when some unmapped name has no id. The order
  it would produce is not modelled, because nothing uses it.
- Export.SortByName: is an insertion sort. Java's list sort is a stable merge
  sort. Stability does not matter, because the entries'
  unmapped names are distinct (each table is keyed by name).
- The contents of a written export file are modelled as its lines. The line
  terminator and the zip entries are not modelled.
- Getters (`getMethods()` and the like) are reads of the class fields.
  Entry getters are datatype fields.
