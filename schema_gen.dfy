/** The drizzle adapter's `createSchema`: the text of a drizzle schema file
    generated from the library's table definitions, for one of three
    database backends. Reading the table definitions and asking the file
    system whether the target file exists are inputs here. */
module SchemaGen {
  import opened Wrappers

  datatype Provider = Pg | MySql | Sqlite

  datatype FieldType = StringType | NumberType | BooleanType | DateType

  /** A foreign key: the target model and field. */
  datatype Reference = Reference(model: string, field: string)

  /** The parts of a field descriptor the generator reads. */
  datatype FieldAttr = FieldAttr(fieldType: FieldType, required: bool, unique: bool, references: Option<Reference>)

  /** A table definition: the physical table name and its fields in key order. */
  datatype Table = Table(tableName: string, fields: seq<(string, FieldAttr)>)

  /** The returned `{ code, fileName, overwrite }`. */
  datatype SchemaFile = SchemaFile(code: string, fileName: string, overwrite: bool)

  const DefaultFileName: string := "./auth-schema.ts"
  const EntrySeparator: string := ",\n "
  const NotNull: string := ".notNull()"
  const Unique: string := ".unique()"
  const ReferencesOpen: string := ".references(()=> "

  function ProviderName(p: Provider): string {
    match p
    case Pg => "pg"
    case MySql => "mysql"
    case Sqlite => "sqlite"
  }

  /** The integer column constructor: `int` on mysql, `integer` elsewhere. */
  function IntName(p: Provider): (r: string)
    ensures r == "int" <==> p == MySql
    ensures r == "integer" <==> p != MySql
  {
    if p == MySql then "int" else "integer"
  }

  /** The four `${...}` slots of the import list, joined by `, `; the last
      slot is empty on sqlite, which leaves `integer,  }` in the text. */
  function ImportSlots(p: Provider): seq<string> {
    [ProviderName(p) + "Table", "text", IntName(p), if p != Sqlite then "timestamp, boolean" else ""]
  }

  /** The names the generated file imports from drizzle. */
  function ImportedNames(p: Provider): seq<string> {
    [ProviderName(p) + "Table", "text", IntName(p)] + (if p != Sqlite then ["timestamp", "boolean"] else [])
  }

  /** The import line the generated file starts with: it imports exactly
      `ImportedNames(p)` from the backend's drizzle module, with a stray
      trailing `, ` on sqlite. */
  function Header(p: Provider): (r: string)
    ensures r == "import { " + (Join(ImportedNames(p), ", ") + (if p == Sqlite then ", " else ""))
                 + " } from \"drizzle-orm/" + ProviderName(p) + "-core\";\n\t\t\t"
  {
    HeaderListsImports(p);
    assert Join(ImportedNames(p), ", ") + "" == Join(ImportedNames(p), ", ");
    "import { " + Join(ImportSlots(p), ", ") + " } from \"drizzle-orm/" + ProviderName(p) + "-core\";\n\t\t\t"
  }

  /** The name of the column constructor `getType` calls. */
  function ColumnConstructor(p: Provider, t: FieldType): (r: string)
    ensures p == Sqlite ==> r == "text" || r == "integer"
    ensures t == NumberType ==> r == IntName(p)
  {
    match t
    case StringType => "text"
    case NumberType => IntName(p)
    case BooleanType => if p == Sqlite then "integer" else "boolean"
    case DateType => if p == Sqlite then "integer" else "timestamp"
  }

  /** The extra argument sqlite's integer-backed boolean and date columns
      carry: the mode annotation. */
  function ColumnOptions(p: Provider, t: FieldType): (r: string)
    ensures r != "" <==> p == Sqlite && (t == BooleanType || t == DateType)
    ensures r != "" ==> ColumnConstructor(p, t) == "integer"
  {
    if p == Sqlite && t == BooleanType then ", {\n\t\t\t\t\t\t\t\tmode: \"boolean\"\n\t\t\t\t\t\t\t}"
    else if p == Sqlite && t == DateType then ", {\n\t\t\t\t\t\t\t\tmode: \"timestamp\"\n\t\t\t\t\t\t\t}"
    else ""
  }

  /** `getType`: the column-constructor call for a field. */
  function ColumnType(p: Provider, name: string, t: FieldType): (r: string)
    ensures HasPrefix(r, ColumnConstructor(p, t) + "('" + name + "'")
    ensures r[|ColumnConstructor(p, t) + "('" + name + "'"|..] == ColumnOptions(p, t) + ")"
  {
    var call := ColumnConstructor(p, t) + "('" + name + "'";
    PrefixSplit(call, ColumnOptions(p, t) + ")");
    call + (ColumnOptions(p, t) + ")")
  }

  predicate HasPrefix(s: string, prefix: string) {
    |prefix| <= |s| && s[..|prefix|] == prefix
  }

  /** The text a reference modifier points at: `model.field`. */
  function ReferenceTarget(r: Option<Reference>): Option<string> {
    match r
    case None => None
    case Some(ref) => Some(ref.model + "." + ref.field)
  }

  /** The modifiers after a column: `.notNull()`, `.unique()` and
      `.references(...)`, each when its flag is set, in that order. Decoding
      them recovers the field's required and unique flags and its reference
      target: `.notNull()` is there iff the field is required, `.unique()`
      iff it is unique, `.references(...)` iff it has a reference. */
  function Modifiers(attr: FieldAttr): (r: string)
    ensures DecodeModifiers(r) == Some((attr.required, attr.unique, ReferenceTarget(attr.references)))
  {
    var refText := ReferenceText(attr.references);
    var rest := (if attr.unique then Unique else "") + refText;
    assert refText == [] || refText[1] == 'r' by {
      if refText != [] {
        assert refText[..|ReferencesOpen|] == ReferencesOpen;
      }
    }
    assert rest == [] || rest[1] == 'u' || rest[1] == 'r';
    StripMarkerOf(Unique, attr.unique, refText);
    StripMarkerOf(NotNull, attr.required, rest);
    (if attr.required then NotNull else "") + rest
  }

  /** `.references(()=> model.field)`, or nothing; it decodes back to its
      target. */
  function ReferenceText(references: Option<Reference>): (r: string)
    ensures r == "" <==> references.None?
    ensures DecodeReference(r) == Some(ReferenceTarget(references))
  {
    match ReferenceTarget(references)
    case None => ""
    case Some(target) =>
      var t := ReferencesOpen + target + ")";
      assert t[..|ReferencesOpen|] == ReferencesOpen;
      assert t[|ReferencesOpen|..|t| - 1] == target;
      t
  }

  /** Whether `s` starts with `marker`, and what follows it if so. */
  function StripMarker(s: string, marker: string): (bool, string) {
    if HasPrefix(s, marker) then (true, s[|marker|..]) else (false, s)
  }

  /** Reads a reference modifier `.references(()=> target)` back. */
  function DecodeReference(s: string): Option<Option<string>> {
    if s == [] then Some(None)
    else if HasPrefix(s, ReferencesOpen) && |s| > |ReferencesOpen| && s[|s| - 1] == ')' then
      Some(Some(s[|ReferencesOpen|..|s| - 1]))
    else None
  }

  /** Reads the flags back out of a modifier string. */
  function DecodeModifiers(s: string): Option<(bool, bool, Option<string>)> {
    var (required, s1) := StripMarker(s, NotNull);
    var (unique, s2) := StripMarker(s1, Unique);
    match DecodeReference(s2)
    case None => None
    case Some(target) => Some((required, unique, target))
  }

  /** One field's entry in a table declaration: `name: column` followed by
      modifiers from which the field's required and unique flags and its
      reference target can be read back. */
  function FieldEntry(p: Provider, field: (string, FieldAttr)): (r: string)
    ensures var head := field.0 + ": " + ColumnType(p, field.0, field.1.fieldType);
      && HasPrefix(r, head)
      && DecodeModifiers(r[|head|..]) == Some((field.1.required, field.1.unique, ReferenceTarget(field.1.references)))
  {
    var head := field.0 + ": " + ColumnType(p, field.0, field.1.fieldType);
    PrefixSplit(head, Modifiers(field.1));
    head + Modifiers(field.1)
  }

  /** `Object.keys(fields).map(...)`: one entry per field, in key order. */
  function FieldEntries(p: Provider, fields: seq<(string, FieldAttr)>): (r: seq<string>)
    ensures |r| == |fields|
    ensures forall i :: 0 <= i < |fields| ==> r[i] == FieldEntry(p, fields[i])
  {
    seq(|fields|, k requires 0 <= k < |fields| => FieldEntry(p, fields[k]))
  }

  /** `Array.prototype.join`: its length ends with the last element, which
      starts at its `Offset`. */
  function Join(xs: seq<string>, sep: string): (r: string)
    ensures xs == [] ==> r == ""
    ensures xs != [] ==> |r| == Offset(xs, sep, |xs| - 1) + |xs[|xs| - 1]|
  {
    if xs == [] then ""
    else if |xs| == 1 then xs[0]
    else xs[0] + sep + Join(xs[1..], sep)
  }

  /** Where entry `i` of a join starts: the entries before it, each followed
      by the separator. */
  function Offset(xs: seq<string>, sep: string, i: nat): nat
    requires i <= |xs|
  {
    if i == 0 then 0 else |xs[0]| + |sep| + Offset(xs[1..], sep, i - 1)
  }

  /** The opening of every table declaration, up to and including the
      implicit `id` primary key. */
  function DeclarationHead(p: Provider, key: string, tableName: string): string {
    "export const " + key + " = " + ProviderName(p) + "Table(\"" + tableName
      + "\", {\n\t\t\t\t\tid: text(\"id\").primaryKey(),\n\t\t\t\t\t"
  }

  const DeclarationTail: string := "\n\t\t\t\t});"

  /** One `export const` table declaration: the head with the `id` column,
      the field entries joined in key order, then the closing. */
  function TableDecl(p: Provider, key: string, table: Table): string {
    Enclosed(DeclarationHead(p, key, table.tableName), FieldEntries(p, table.fields), EntrySeparator, DeclarationTail)
  }

  /** `xs` joined by `sep`, between `head` and `tail`. */
  function Enclosed(head: string, xs: seq<string>, sep: string, tail: string): string {
    head + Join(xs, sep) + tail
  }

  /** The declarations of the given tables, each wrapped in newlines, in order. */
  function Declarations(p: Provider, tables: seq<(string, Table)>): string {
    ConcatMap(tables, entry => Wrapped(p, entry))
  }

  /** The texts `f` gives the tables, concatenated in order. */
  function ConcatMap(tables: seq<(string, Table)>, f: ((string, Table)) -> string): string {
    if tables == [] then ""
    else ConcatMap(tables[..|tables| - 1], f) + f(tables[|tables| - 1])
  }

  /** `\n${schema}\n`: one declaration as appended to the code. */
  function Wrapped(p: Provider, entry: (string, Table)): string {
    "\n" + TableDecl(p, entry.0, entry.1) + "\n"
  }

  /** `file || "./auth-schema.ts"`: an absent or empty path gives the default. */
  function ResolveFileName(file: Option<string>): (r: string)
    ensures r != ""
    ensures file.Some? && file.value != "" ==> r == file.value
    ensures file.None? || file.value == "" ==> r == DefaultFileName
  {
    if file.Some? && file.value != "" then file.value else DefaultFileName
  }

  lemma ConcatMapStep(tables: seq<(string, Table)>, f: ((string, Table)) -> string, i: nat, header: string, code: string)
    requires i < |tables|
    requires code == header + ConcatMap(tables[..i], f)
    ensures code + f(tables[i]) == header + ConcatMap(tables[..i + 1], f)
  {
    assert tables[..i + 1][..i] == tables[..i];
    AppendAssoc(header, ConcatMap(tables[..i], f), f(tables[i]));
  }

  /** One turn of the generator's loop appends the next declaration. */
  lemma DeclarationsStep(p: Provider, tables: seq<(string, Table)>, i: nat, header: string, code: string)
    requires i < |tables|
    requires code == header + Declarations(p, tables[..i])
    ensures code + "\n" + TableDecl(p, tables[i].0, tables[i].1) + "\n"
         == header + Declarations(p, tables[..i + 1])
  {
    var decl := TableDecl(p, tables[i].0, tables[i].1);
    ConcatMapStep(tables, entry => Wrapped(p, entry), i, header, code);
    AppendAssoc(code, "\n", decl);
    AppendAssoc(code, "\n" + decl, "\n");
  }

  /** `createSchema`: the header, then one declaration per table appended in
      turn; `overwrite` says whether the target path already exists. */
  method CreateSchema(p: Provider, tables: seq<(string, Table)>, file: Option<string>, existing: set<string>)
    returns (out: SchemaFile)
    ensures out.code == Header(p) + Declarations(p, tables)
    ensures out.fileName == ResolveFileName(file)
    ensures out.overwrite <==> out.fileName in existing
  {
    var filePath := ResolveFileName(file);
    var code := Header(p);
    var fileExists := filePath in existing;
    var i := 0;
    while i < |tables|
      invariant 0 <= i <= |tables|
      invariant code == Header(p) + Declarations(p, tables[..i])
    {
      var key := tables[i].0;
      var schema := TableDecl(p, key, tables[i].1);
      DeclarationsStep(p, tables, i, Header(p), code);
      code := code + "\n" + schema + "\n";
      i := i + 1;
    }
    assert tables[..i] == tables;
    out := SchemaFile(code, filePath, fileExists);
  }

  // ---------------------------------------------------------------------
  // Properties

  /** The import list names exactly `ImportedNames(p)`; on sqlite it carries
      one trailing empty slot. */
  lemma HeaderListsImports(p: Provider)
    ensures p != Sqlite ==> Join(ImportSlots(p), ", ") == Join(ImportedNames(p), ", ")
    ensures p == Sqlite ==> Join(ImportSlots(p), ", ") == Join(ImportedNames(p), ", ") + ", "
  {
    var sep, table, intName := ", ", ProviderName(p) + "Table", IntName(p);
    if p != Sqlite {
      assert "timestamp, boolean" == "timestamp" + ", " + "boolean";
      assert ImportSlots(p) == [table, "text", intName, "timestamp" + sep + "boolean"];
      assert ImportedNames(p) == [table, "text", intName, "timestamp", "boolean"];
      JoinFour(table, "text", intName, "timestamp" + sep + "boolean", sep);
      JoinFive(table, "text", intName, "timestamp", "boolean", sep);
    } else {
      assert ImportSlots(p) == [table, "text", intName, ""];
      assert ImportedNames(p) == [table, "text", intName];
      JoinFour(table, "text", intName, "", sep);
      JoinThree(table, "text", intName, sep);
      assert intName + sep + "" == intName + sep;
      AppendAssoc("text" + sep, intName, sep);
      AppendAssoc(table + sep, "text" + sep + intName, sep);
    }
  }

  lemma JoinThree(a: string, b: string, c: string, sep: string)
    ensures Join([a, b, c], sep) == a + sep + (b + sep + c)
  {
    assert [a, b, c][1..] == [b, c];
    assert [b, c][1..] == [c];
    assert Join([c], sep) == c;
    assert Join([b, c], sep) == b + sep + c;
  }

  lemma JoinFour(a: string, b: string, c: string, d: string, sep: string)
    ensures Join([a, b, c, d], sep) == a + sep + (b + sep + (c + sep + d))
  {
    assert [a, b, c, d][1..] == [b, c, d];
    JoinThree(b, c, d, sep);
  }

  lemma JoinFive(a: string, b: string, c: string, d: string, e: string, sep: string)
    ensures Join([a, b, c, d, e], sep) == a + sep + (b + sep + (c + sep + (d + sep + e)))
  {
    assert [a, b, c, d, e][1..] == [b, c, d, e];
    JoinFour(b, c, d, e, sep);
  }

  /** Every column constructor a declaration calls is imported, and the
      native `timestamp` and `boolean` are imported exactly when the backend
      is not sqlite. */
  lemma ConstructorsImported(p: Provider, t: FieldType)
    ensures ColumnConstructor(p, t) in ImportedNames(p)
    ensures "timestamp" in ImportedNames(p) <==> p != Sqlite
    ensures "boolean" in ImportedNames(p) <==> p != Sqlite
  {
    var names := ImportedNames(p);
    assert names[1] == "text" && names[2] == IntName(p);
    if p != Sqlite {
      assert names[3] == "timestamp" && names[4] == "boolean";
    } else {
      assert |names| == 3 && names[0] == "sqliteTable";
      assert "timestamp" != names[0] && "boolean" != names[0];
    }
  }

  /** The column text for each field type, as the source's templates spell
      it: strings are `text`, numbers `int` or `integer`, and booleans and
      dates native columns except on sqlite. */
  lemma ColumnTypeShapes(p: Provider, name: string)
    ensures ColumnType(p, name, StringType) == "text('" + name + "')"
    ensures ColumnType(p, name, NumberType) == (if p == MySql then "int" else "integer") + "('" + name + "')"
    ensures p != Sqlite ==> ColumnType(p, name, BooleanType) == "boolean('" + name + "')"
    ensures p != Sqlite ==> ColumnType(p, name, DateType) == "timestamp('" + name + "')"
  {
    PlainShape(p, name, StringType, "text('");
    PlainShape(p, name, NumberType, IntName(p) + "('");
    if p != Sqlite {
      PlainShape(p, name, BooleanType, "boolean('");
      PlainShape(p, name, DateType, "timestamp('");
    }
  }

  lemma PlainShape(p: Provider, name: string, t: FieldType, open: string)
    requires ColumnOptions(p, t) == ""
    requires open == ColumnConstructor(p, t) + "('"
    ensures ColumnType(p, name, t) == open + name + "')"
  {
    var c := ColumnConstructor(p, t);
    assert ColumnType(p, name, t) == c + "('" + name + "'" + ("" + ")");
    AppendAssoc(c + "('" + name, "'", ")");
  }

  /** On sqlite, booleans and dates are integer columns tagged with a mode. */
  lemma SqliteModeShapes(name: string)
    ensures ColumnType(Sqlite, name, BooleanType) ==
      "integer('" + name + "', {\n\t\t\t\t\t\t\t\tmode: \"boolean\"\n\t\t\t\t\t\t\t})"
    ensures ColumnType(Sqlite, name, DateType) ==
      "integer('" + name + "', {\n\t\t\t\t\t\t\t\tmode: \"timestamp\"\n\t\t\t\t\t\t\t})"
  {
    ModeShape(name, ", {\n\t\t\t\t\t\t\t\tmode: \"boolean\"\n\t\t\t\t\t\t\t}",
      "', {\n\t\t\t\t\t\t\t\tmode: \"boolean\"\n\t\t\t\t\t\t\t})");
    ModeShape(name, ", {\n\t\t\t\t\t\t\t\tmode: \"timestamp\"\n\t\t\t\t\t\t\t}",
      "', {\n\t\t\t\t\t\t\t\tmode: \"timestamp\"\n\t\t\t\t\t\t\t})");
  }

  lemma ModeShape(name: string, mode: string, closing: string)
    requires closing == "'" + mode + ")"
    ensures "integer" + "('" + name + "'" + (mode + ")") == "integer('" + name + closing
  {
    AppendAssoc("integer" + "('" + name + "'", mode, ")");
    AppendAssoc("integer('" + name, "'", mode);
    AppendAssoc("integer('" + name, "'" + mode, ")");
  }

  /** `getType` never maps two field types of one backend to the same
      column text. */
  lemma ColumnTypeInjective(p: Provider, name: string, t1: FieldType, t2: FieldType)
    requires ColumnType(p, name, t1) == ColumnType(p, name, t2)
    ensures t1 == t2
  {
    var r := ColumnType(p, name, t1);
    var c1, c2 := ColumnConstructor(p, t1), ColumnConstructor(p, t2);
    var call1, call2 := c1 + "('" + name + "'", c2 + "('" + name + "'";
    assert r[..|call1|] == call1 && r[..|call2|] == call2;
    assert r[0] == call1[0] == c1[0] && r[1] == call1[1] == c1[1];
    assert r[0] == call2[0] == c2[0] && r[1] == call2[1] == c2[1];
    if c1 == c2 {
      assert ColumnOptions(p, t1) + ")" == ColumnOptions(p, t2) + ")";
      assert ColumnOptions(p, t1) == (ColumnOptions(p, t1) + ")")[..|ColumnOptions(p, t1)|];
      assert ColumnOptions(p, t2) == (ColumnOptions(p, t2) + ")")[..|ColumnOptions(p, t2)|];
    }
  }

  /** Stripping a marker that was put in front of `rest` recovers the flag
      and `rest`, provided `rest` cannot be mistaken for the marker. */
  lemma StripMarkerOf(marker: string, present: bool, rest: string)
    requires |marker| >= 2
    requires rest == [] || (|rest| >= 2 && rest[1] != marker[1])
    ensures StripMarker((if present then marker else "") + rest, marker) == (present, rest)
  {
    var s := (if present then marker else "") + rest;
    if present {
      assert s[..|marker|] == marker;
      assert s[|marker|..] == rest;
    } else {
      assert s == rest;
      if rest != [] && |marker| <= |rest| {
        // the second characters differ
        assert rest[..|marker|][1] == rest[1];
      }
    }
  }

  /** A table declaration starts with `${provider}Table("${tableName}", {`
      and the implicit `id` primary key, and ends with the closing; with no
      fields there is nothing in between. */
  lemma TableDeclShape(p: Provider, key: string, table: Table)
    ensures HasPrefix(TableDecl(p, key, table), DeclarationHead(p, key, table.tableName))
    ensures |DeclarationTail| <= |TableDecl(p, key, table)|
    ensures TableDecl(p, key, table)[|TableDecl(p, key, table)| - |DeclarationTail|..] == DeclarationTail
    ensures table.fields == [] ==> TableDecl(p, key, table) == DeclarationHead(p, key, table.tableName) + DeclarationTail
  {
    var head := DeclarationHead(p, key, table.tableName);
    var joined := Join(FieldEntries(p, table.fields), EntrySeparator);
    if table.fields == [] {
      assert FieldEntries(p, table.fields) == [];
      assert head + joined == head;
    }
    AppendAssoc(head, joined, DeclarationTail);
    PrefixSplit(head, joined + DeclarationTail);
    PrefixSplit(head + joined, DeclarationTail);
  }

  /** `x` occurs in `d` starting at index `at`. */
  predicate Occurs(d: string, at: nat, x: string) {
    at + |x| <= |d| && d[at..at + |x|] == x
  }

  /** Where the entry of field `i` starts in its table's declaration. */
  function EntryStart(p: Provider, key: string, table: Table, i: nat): nat
    requires i < |table.fields|
  {
    |DeclarationHead(p, key, table.tableName)| + Offset(FieldEntries(p, table.fields), EntrySeparator, i)
  }

  /** Between the head and the closing, the entry of field `i` sits at its
      offset, so the entries appear in key order; every entry but the last
      is followed by `,\n `. */
  lemma {:induction false} TableDeclEntry(p: Provider, key: string, table: Table, i: nat)
    requires i < |table.fields|
    ensures Occurs(TableDecl(p, key, table), EntryStart(p, key, table, i), FieldEntry(p, table.fields[i]))
    ensures i + 1 < |table.fields| ==>
      Occurs(TableDecl(p, key, table), EntryStart(p, key, table, i), FieldEntry(p, table.fields[i]) + EntrySeparator)
  {
    var entries := FieldEntries(p, table.fields);
    assert |entries| == |table.fields|;
    JoinedAt(TableDecl(p, key, table), EntryStart(p, key, table, i), DeclarationHead(p, key, table.tableName),
      entries, EntrySeparator, DeclarationTail, i, FieldEntry(p, table.fields[i]));
  }

  /** The last entry runs up to the closing. */
  lemma {:induction false} TableDeclLast(p: Provider, key: string, table: Table)
    requires table.fields != []
    ensures EntryStart(p, key, table, |table.fields| - 1) + |FieldEntry(p, table.fields[|table.fields| - 1])|
              + |DeclarationTail| == |TableDecl(p, key, table)|
  {
    var i := |table.fields| - 1;
    var d, at := TableDecl(p, key, table), EntryStart(p, key, table, i);
    var entries, entry := FieldEntries(p, table.fields), FieldEntry(p, table.fields[i]);
    JoinedAt(d, at, DeclarationHead(p, key, table.tableName), entries, EntrySeparator, DeclarationTail, i, entry);
  }

  /** Where element `i` of the join, `x`, sits in `d`, the join between
      `head` and `tail`: at `at`, `|head|` plus its offset. */
  lemma {:induction false} JoinedAt(d: string, at: nat, head: string, xs: seq<string>, sep: string, tail: string, i: nat, x: string)
    requires d == Enclosed(head, xs, sep, tail)
    requires i < |xs| && xs[i] == x
    requires at == |head| + Offset(xs, sep, i)
    ensures Occurs(d, at, x)
    ensures i + 1 < |xs| ==> Occurs(d, at, x + sep)
    ensures i + 1 == |xs| ==> at + |x| + |tail| == |d|
  {
    var joined := Join(xs, sep);
    var o := Offset(xs, sep, i);
    var e := o + |x|;
    JoinAt(xs, sep, i);
    PlacedBetween(head, joined, tail, o, e);
    assert d[|head| + o..|head| + e] == joined[o..e] == x;
    if i + 1 < |xs| {
      JoinSepAt(xs, sep, i);
      PlacedBetween(head, joined, tail, o, e + |sep|);
      assert joined[o..e + |sep|] == joined[o..e] + joined[e..e + |sep|];
      assert d[|head| + o..|head| + e + |sep|] == joined[o..e + |sep|] == x + sep;
    }
  }

  /** A slice of the middle part of `x + y + z`, found after `x`. */
  lemma PlacedBetween(x: string, y: string, z: string, lo: nat, hi: nat)
    requires lo <= hi <= |y|
    ensures (x + y + z)[|x| + lo..|x| + hi] == y[lo..hi]
  {
    AppendAssoc(x, y, z);
    SliceAfter(x, y + z, lo, hi);
    assert (y + z)[lo..hi] == y[lo..hi];
  }

  lemma PrefixSplit(head: string, body: string)
    ensures HasPrefix(head + body, head)
    ensures (head + body)[|head|..] == body
  {
    assert (head + body)[..|head|] == head;
  }

  /** Entry `i` of a join sits at `Offset(xs, sep, i)`, and the last one
      ends the join: one entry per element, in order. */
  lemma {:induction false} JoinAt(xs: seq<string>, sep: string, i: nat)
    requires i < |xs|
    ensures Offset(xs, sep, i) + |xs[i]| <= |Join(xs, sep)|
    ensures Join(xs, sep)[Offset(xs, sep, i)..Offset(xs, sep, i) + |xs[i]|] == xs[i]
    ensures i + 1 == |xs| ==> |Join(xs, sep)| == Offset(xs, sep, i) + |xs[i]|
  {
    var j := Join(xs, sep);
    if |xs| == 1 {
      assert j == xs[0];
    } else {
      var front := xs[0] + sep;
      var rest := Join(xs[1..], sep);
      assert j == front + rest;
      if i == 0 {
        assert j[..|xs[0]|] == front[..|xs[0]|] == xs[0];
      } else {
        assert xs[1..][i - 1] == xs[i];
        JoinAt(xs[1..], sep, i - 1);
        var o := Offset(xs[1..], sep, i - 1);
        assert Offset(xs, sep, i) == |front| + o;
        SliceAfter(front, rest, o, o + |xs[i]|);
      }
    }
  }

  /** Every entry of a join but the last is followed by the separator. */
  lemma {:induction false} JoinSepAt(xs: seq<string>, sep: string, i: nat)
    requires i + 1 < |xs|
    ensures Offset(xs, sep, i) + |xs[i]| + |sep| <= |Join(xs, sep)|
    ensures Join(xs, sep)[Offset(xs, sep, i) + |xs[i]|..Offset(xs, sep, i) + |xs[i]| + |sep|] == sep
  {
    var j := Join(xs, sep);
    var front := xs[0] + sep;
    var rest := Join(xs[1..], sep);
    assert j == front + rest;
    if i == 0 {
      assert j[|xs[0]|..|front|] == front[|xs[0]|..] == sep;
    } else {
      assert xs[1..][i - 1] == xs[i];
      JoinSepAt(xs[1..], sep, i - 1);
      var e := Offset(xs[1..], sep, i - 1) + |xs[i]|;
      assert Offset(xs, sep, i) + |xs[i]| == |front| + e;
      SliceAfter(front, rest, e, e + |sep|);
    }
  }

  lemma SliceAfter(x: string, y: string, lo: nat, hi: nat)
    requires lo <= hi <= |y|
    ensures (x + y)[|x| + lo..|x| + hi] == y[lo..hi]
  {
  }

  lemma AppendAssoc(x: string, y: string, z: string)
    ensures (x + y) + z == x + (y + z)
  {
  }

  lemma {:induction false} ConcatMapAppend(a: seq<(string, Table)>, b: seq<(string, Table)>, f: ((string, Table)) -> string)
    ensures ConcatMap(a + b, f) == ConcatMap(a, f) + ConcatMap(b, f)
  {
    if b == [] {
      assert a + b == a;
    } else {
      var b' := b[..|b| - 1];
      var ab := a + b;
      assert ab[..|ab| - 1] == a + b';
      assert ab[|ab| - 1] == b[|b| - 1];
      ConcatMapAppend(a, b', f);
      AppendAssoc(ConcatMap(a, f), ConcatMap(b', f), f(b[|b| - 1]));
    }
  }

  /** The declarations of two lists of tables are the declarations of each,
      in order: every table contributes its own text, unaffected by the
      others. */
  lemma DeclarationsAppend(p: Provider, a: seq<(string, Table)>, b: seq<(string, Table)>)
    ensures Declarations(p, a + b) == Declarations(p, a) + Declarations(p, b)
  {
    ConcatMapAppend(a, b, entry => Wrapped(p, entry));
  }
}
