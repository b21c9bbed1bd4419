# Drizzle adapter: where-clause translation and schema-file generation

This project models, in Dafny, the data-to-data core of better-auth's drizzle
database adapter (`packages/better-auth/src/adapters/drizzle-adapter/index.ts`):

- **`getSchema`** (module `WhereClause`): looks a model's table up in the
  schema map. It fails with the adapter's configuration error only when the
  map itself is missing. A model name that is not an own key of the map
  yields `undefined`.
- **`whereConvertor`** (module `WhereClause`): turns an ordered list of generic
  `Where` clauses (`field`, `value`, optional connector `AND`/`OR`) into drizzle
  predicates. Predicates are the datatype `Eq(field, value) | And(preds) |
  Or(preds)`. `Eval` gives each one a meaning over a row (column name to
  value), so the meaning of the AND and OR groups can be stated.
- **`createSchema`** (module `SchemaGen`): generates the text of a drizzle
  schema file for the `pg`, `mysql` or `sqlite` backend. The text is an import
  header, then one `export const` table declaration per table. Each
  declaration has an implicit `id` primary key, then one entry per field with
  its column constructor (`getType`) and its `.notNull()`, `.unique()` and
  `.references(...)` modifiers. `createSchema` is a method with the source's
  loop, and its result is specified by the functions `Header` and
  `Declarations`.

Module `Wrappers` holds `Option` (standing in for `undefined`) and `Result`
(standing in for a thrown error).

Two behaviours of the code are worth stating up front:
- `getSchema` throws only when the whole schema map is missing. Otherwise it
  returns `schema[modelName]`, which is `undefined` for a model that is not a
  key of the map (own or inherited). `GetSchema` returns `None` in that case, and `WhereConvertor`
  then fails with a `TypeError` as soon as it reads a column of that table.
- The file name is `file || "./auth-schema.ts"`, so an empty path also gets
  the default. `ResolveFileName` models that.

## Model

| member | source | states |
|---|---|---|
| WhereClause.GetSchema | packages/better-auth/src/adapters/drizzle-adapter/index.ts:14-21 | fails, with the exact "Schema not found" configuration message, if and only if the schema map is missing; otherwise returns the map's entry for the model unchanged, or nothing when the model is not an own key of the map (no existence check) |
| WhereClause.WhereConvertor | packages/better-auth/src/adapters/drizzle-adapter/index.ts:23-51 | an absent list gives no predicate; a one-element list gives exactly `Eq(field, value)` of that clause whatever its connector, or no predicate if that element is missing; any other length gives at most two predicates, the AND/OR combination; it is a TypeError exactly when a list of another length has a missing element (reading `connector` of `undefined`) or when a clause is converted while the table handle is missing (reading a column of `undefined`) |
| WhereClause.UnknownModelTypeError | packages/better-auth/src/adapters/drizzle-adapter/index.ts:14-51 | for a model name that is not an own key of the schema map, `getSchema` returns nothing, and converting any non-empty list of clauses against that result is a TypeError |
| WhereClause.AllPresent | packages/better-auth/src/adapters/drizzle-adapter/index.ts:32-33 | the clause list is usable by the two filters exactly when no element is missing, and then it holds the same clauses in the same order |
| WhereClause.Filter | packages/better-auth/src/adapters/drizzle-adapter/index.ts:32-33 | a filtered group is no longer than the input and holds exactly the input clauses that satisfy the group's test |
| WhereClause.AndGroup | packages/better-auth/src/adapters/drizzle-adapter/index.ts:32 | the AND group holds exactly the clauses whose connector is `AND` or absent, and no more clauses than the input |
| WhereClause.OrGroup | packages/better-auth/src/adapters/drizzle-adapter/index.ts:33 | the OR group holds exactly the clauses whose connector is `OR`, and no more clauses than the input |
| WhereClause.FilterAppend | packages/better-auth/src/adapters/drizzle-adapter/index.ts:32-33 | filtering distributes over concatenation, so each group keeps the input order of its clauses |
| WhereClause.GroupExclusive | packages/better-auth/src/adapters/drizzle-adapter/index.ts:32-33 | every clause satisfies exactly one of the two group tests (connector `AND` or none, versus `OR`) |
| WhereClause.GroupsPartition | packages/better-auth/src/adapters/drizzle-adapter/index.ts:32-33 | the AND group and the OR group together hold every clause exactly once, counted with multiplicity, and no clause is in both |
| WhereClause.EveryClauseGrouped | packages/better-auth/src/adapters/drizzle-adapter/index.ts:32-44 | a non-empty clause list always puts some clause in one of the two groups, so at least one column is read |
| WhereClause.EqAll | packages/better-auth/src/adapters/drizzle-adapter/index.ts:35-44 | one equality predicate per clause of a group, at the same position, on that clause's field and value |
| WhereClause.AndGroupMeaning | packages/better-auth/src/adapters/drizzle-adapter/index.ts:35-39 | the AND combination holds of a row if and only if every clause with connector `AND` or none matches it |
| WhereClause.OrGroupMeaning | packages/better-auth/src/adapters/drizzle-adapter/index.ts:40-44 | the OR combination holds of a row if and only if some clause with connector `OR` matches it |
| WhereClause.Combine | packages/better-auth/src/adapters/drizzle-adapter/index.ts:46-50 | at most two predicates; it contains the AND combination iff the AND group is non-empty and the OR combination iff the OR group is non-empty; nothing else; with two, AND comes first |
| WhereClause.CombineGroups | packages/better-auth/src/adapters/drizzle-adapter/index.ts:32-50 | the AND combination is present iff some clause has connector `AND` or none, the OR combination iff some clause has connector `OR`, and with both the result is exactly `[AND, OR]` |
| WhereClause.EmptyListNoPredicate | packages/better-auth/src/adapters/drizzle-adapter/index.ts:32-50 | an empty list yields the empty predicate list, whether or not the table handle exists |
| WhereClause.MixedConnectorsExample | packages/better-auth/src/adapters/drizzle-adapter/index.ts:32-50 | `[{a, 1}, {b, 2, OR}]` yields an AND predicate on `a = 1` followed by an OR predicate on `b = 2` |
| SchemaGen.IntName | packages/better-auth/src/adapters/drizzle-adapter/index.ts:134 | the integer constructor is `int` exactly on mysql and `integer` on every other backend |
| SchemaGen.Header | packages/better-auth/src/adapters/drizzle-adapter/index.ts:132-136 | the file starts with `import { ... } from "drizzle-orm/<provider>-core";` listing exactly `ImportedNames`, with a stray `, ` on sqlite, and ends with the template's newline and indentation |
| SchemaGen.HeaderListsImports | packages/better-auth/src/adapters/drizzle-adapter/index.ts:132-136 | the import header's list names exactly `ImportedNames` (`<provider>Table, text, <int>`, then `timestamp, boolean` except on sqlite); on sqlite an empty trailing slot is left |
| SchemaGen.ConstructorsImported | packages/better-auth/src/adapters/drizzle-adapter/index.ts:132-166 | every column constructor `getType` calls is imported by the header, and `timestamp` and `boolean` are imported if and only if the backend is not sqlite |
| SchemaGen.ColumnConstructor | packages/better-auth/src/adapters/drizzle-adapter/index.ts:144-166 | sqlite columns only ever use `text` or `integer`; number fields use the backend's integer constructor |
| SchemaGen.ColumnOptions | packages/better-auth/src/adapters/drizzle-adapter/index.ts:151-166 | a column carries a mode option if and only if the backend is sqlite and the field is boolean or date, and then its constructor is `integer` |
| SchemaGen.ColumnTypeShapes | packages/better-auth/src/adapters/drizzle-adapter/index.ts:144-166 | string gives `text('name')`, number gives `int('name')` on mysql and `integer('name')` otherwise, and boolean and date give `boolean('name')` and `timestamp('name')` off sqlite |
| SchemaGen.SqliteModeShapes | packages/better-auth/src/adapters/drizzle-adapter/index.ts:151-166 | on sqlite, boolean and date give `integer('name', {mode: "boolean"})` and `integer('name', {mode: "timestamp"})`, with the source's exact line breaks and tabs |
| SchemaGen.ColumnTypeInjective | packages/better-auth/src/adapters/drizzle-adapter/index.ts:144-166 | for a fixed backend and field name, different field types never produce the same column text |
| SchemaGen.ReferenceText | packages/better-auth/src/adapters/drizzle-adapter/index.ts:176-179 | the reference modifier is empty if and only if the field has no reference, and it decodes back to `model.field` of that reference |
| SchemaGen.Modifiers | packages/better-auth/src/adapters/drizzle-adapter/index.ts:173-179 | decoding the modifier text recovers the field's flags: `.notNull()` is there iff required, `.unique()` iff unique, `.references(()=> model.field)` iff it has a reference, in that order |
| SchemaGen.FieldEntry | packages/better-auth/src/adapters/drizzle-adapter/index.ts:173-179 | a field's entry starts with `name: <column>`, and the rest decodes back to that field's required flag, unique flag and reference target |
| SchemaGen.FieldEntries | packages/better-auth/src/adapters/drizzle-adapter/index.ts:170-180 | one entry per field, in key order |
| SchemaGen.Join | packages/better-auth/src/adapters/drizzle-adapter/index.ts:181 | joining nothing gives the empty text; otherwise the text ends exactly where the last element, placed at its offset, ends |
| SchemaGen.JoinAt | packages/better-auth/src/adapters/drizzle-adapter/index.ts:181 | in the joined entries, entry `i` sits at its offset, and the last entry ends the text: each entry appears once, in order |
| SchemaGen.JoinSepAt | packages/better-auth/src/adapters/drizzle-adapter/index.ts:181 | every entry but the last is followed by the `,\n ` separator |
| SchemaGen.TableDeclShape | packages/better-auth/src/adapters/drizzle-adapter/index.ts:168-182 | a declaration starts with `export const <key> = <provider>Table("<tableName>", {` and the implicit `id: text("id").primaryKey(),` line, and ends with the closing `});`; with no fields it is exactly the head followed by the closing |
| SchemaGen.TableDeclEntry | packages/better-auth/src/adapters/drizzle-adapter/index.ts:168-182 | inside a declaration, field `i`'s entry appears at its position after the head, followed by the separator unless it is the last field |
| SchemaGen.TableDeclLast | packages/better-auth/src/adapters/drizzle-adapter/index.ts:168-182 | the last field's entry is followed by nothing but the closing `});` |
| SchemaGen.DeclarationsStep | packages/better-auth/src/adapters/drizzle-adapter/index.ts:183 | appending `\n<declaration>\n` for the next table extends the code to cover one more table |
| SchemaGen.DeclarationsAppend | packages/better-auth/src/adapters/drizzle-adapter/index.ts:141-184 | the declarations of two lists of tables are the declarations of each in order: each table contributes its own text, independent of the others |
| SchemaGen.ResolveFileName | packages/better-auth/src/adapters/drizzle-adapter/index.ts:131 | the file name is never empty: it is the given path when that is non-empty, and `./auth-schema.ts` when it is absent or empty |
| SchemaGen.CreateSchema | packages/better-auth/src/adapters/drizzle-adapter/index.ts:129-191 | `code` is the header followed by every table's declaration wrapped in newlines, in table order; `fileName` is the resolved path; `overwrite` is true iff that path already exists |

## Left out

- The CRUD operations `create`, `findOne`, `findMany`, `update` and `delete` (index.ts:65-128) are not modelled. They are async calls into the drizzle ORM, whose behaviour is not visible here. `create` and `update` return the first returned row, `findOne` the first row or `null`, `findMany` every matching row, and `delete` element 0 of the raw delete result.
- How drizzle's `.where(...wheres)` combines more than one predicate is not modelled. `Eval` states the meaning of each predicate alone, over one row, and not a query meaning for the list.
- `Eval` compares values with plain equality. It does not model SQL comparison or `NULL` semantics. The column lookup `schemaModel[w.field]` is modelled only as far as its failure: a missing table handle makes it a `TypeError`. The column object it returns is not modelled, so a predicate keeps the field name instead, and a field the table does not define is not distinguished.
- `Value` is a small datatype (string, integer, boolean, null). It stands in for the source's `unknown`.
- Connectors are modelled as `AND`, `OR` or absent, the declared type. At run time the AND test is `connector === "AND" || !connector`, so an empty string `""` would join the AND group, and any other non-empty string would fall in neither group. Those run-time values are not modelled.
- A missing array element is modelled as `None`. JavaScript array holes, which `filter` skips, are not distinguished from explicit `undefined`.
- The schema object is modelled as a map of its own keys. On a plain object, `schema[modelName]` (index.ts:20) also finds inherited names such as `constructor`, `toString` and `__proto__`, which return a function or `Object.prototype` rather than `undefined`, so no `TypeError` follows. Those lookups are not modelled, and `UnknownModelTypeError` holds only for names that are not inherited either.
- `schema = options.schema || db._.fullSchema` (index.ts:61) is not modelled. It reads the live database handle. `GetSchema` takes the resulting map, or its absence, as input.
- `getAuthTables` is not part of this model. The table map (model key to table name and fields, in key order) is an input.
- The file system is not modelled. `existsSync` becomes a set of existing paths. `fs.readFile` is left out: its `fileContent` is read but never used.
- Field descriptors keep only the parts the generator reads: type, `required`, `unique`, `references`. Default values and the `returned` flag do not affect the generated text.
- `getType` returns `undefined` for a field type outside `string`, `number`, `boolean` and `date`. The model's field-type datatype has only those four, so that output is not modelled.
- Everything in `packages/better-auth/src/client/types.ts` is left out. It is compile-time type computation with no run-time behaviour.
