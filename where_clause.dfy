/** The drizzle adapter's schema lookup (`getSchema`) and its translation of
    generic `Where` clauses into drizzle predicates (`whereConvertor`).
    Predicates are modelled as a small datatype instead of SQL objects, and
    `Eval` gives each one its meaning over a single row. */
module WhereClause {
  import opened Wrappers

  /** A value compared against a column; the source types it as `unknown`. */
  datatype Value = Str(s: string) | Num(n: int) | Bool(b: bool) | Null

  datatype Connector = AND | OR

  /** A generic filter clause: `{ field, value, connector? }`. */
  datatype Where = Where(field: string, value: Value, connector: Option<Connector>)

  /** drizzle's `eq`, `and` and `or` combinators. */
  datatype Pred = Eq(field: string, value: Value) | And(preds: seq<Pred>) | Or(preds: seq<Pred>)

  /** A row of a table: column name to value. */
  type Row = map<string, Value>

  datatype AdapterError =
    | SchemaNotFound(message: string)
    /** Reading `.connector` of a missing element in a multi-clause list, or
        reading a clause's column from a missing table handle. */
    | TypeError

  const SchemaNotFoundMessage: string :=
    "Drizzle adapter failed to initialize. Schema not found. Please provide a schema object in the adapter options object."

  // ---------------------------------------------------------------------
  // getSchema

  /** Looks a model up in the schema map; fails only when the map itself is
      missing. An unknown model name yields `undefined` (None), not an error. */
  function GetSchema<T>(modelName: string, schema: Option<map<string, T>>): (r: Result<Option<T>, AdapterError>)
    ensures r.Err? <==> schema.None?
    ensures r.Err? ==> r.error == SchemaNotFound(SchemaNotFoundMessage)
    ensures r.Ok? ==> (r.value.Some? <==> modelName in schema.value)
    ensures r.Ok? && r.value.Some? ==> r.value.value == schema.value[modelName]
  {
    match schema
    case None => Err(SchemaNotFound(SchemaNotFoundMessage))
    case Some(m) => Ok(if modelName in m then Some(m[modelName]) else None)
  }

  // ---------------------------------------------------------------------
  // Grouping

  /** Clauses joined conjunctively: connector "AND" or no connector. */
  predicate InAndGroup(w: Where) {
    w.connector == None || w.connector == Some(AND)
  }

  /** Clauses joined disjunctively: connector "OR". */
  predicate InOrGroup(w: Where) {
    w.connector == Some(OR)
  }

  /** `Array.prototype.filter`: the clauses satisfying `keep`, in input order. */
  function Filter(ws: seq<Where>, keep: Where -> bool): (r: seq<Where>)
    ensures |r| <= |ws|
    ensures forall w :: w in r <==> w in ws && keep(w)
  {
    if ws == [] then []
    else (if keep(ws[0]) then [ws[0]] else []) + Filter(ws[1..], keep)
  }

  /** The conjunctive group: connector `"AND"` or no connector at all. */
  function AndGroup(ws: seq<Where>): (r: seq<Where>)
    ensures |r| <= |ws|
    ensures forall w :: w in r <==> w in ws && (w.connector == None || w.connector == Some(AND))
  {
    Filter(ws, InAndGroup)
  }

  /** The disjunctive group: connector `"OR"`. */
  function OrGroup(ws: seq<Where>): (r: seq<Where>)
    ensures |r| <= |ws|
    ensures forall w :: w in r <==> w in ws && w.connector == Some(OR)
  {
    Filter(ws, InOrGroup)
  }

  /** `eq(schemaModel[w.field], w.value)` for each clause, in order. */
  function EqAll(ws: seq<Where>): (r: seq<Pred>)
    ensures |r| == |ws|
    ensures forall i :: 0 <= i < |ws| ==> r[i] == Eq(ws[i].field, ws[i].value)
  {
    if ws == [] then [] else [Eq(ws[0].field, ws[0].value)] + EqAll(ws[1..])
  }

  /** The several-clause case: at most one AND predicate followed by at most
      one OR predicate, each present only when its group is non-empty. */
  function Combine(ws: seq<Where>): (r: seq<Pred>)
    ensures |r| <= 2
    ensures And(EqAll(AndGroup(ws))) in r <==> |AndGroup(ws)| > 0
    ensures Or(EqAll(OrGroup(ws))) in r <==> |OrGroup(ws)| > 0
    ensures forall p :: p in r ==> p == And(EqAll(AndGroup(ws))) || p == Or(EqAll(OrGroup(ws)))
    ensures |r| == 2 ==> r[0].And? && r[1].Or?
  {
    var andGroup := AndGroup(ws);
    var orGroup := OrGroup(ws);
    (if |andGroup| > 0 then [And(EqAll(andGroup))] else [])
      + (if |orGroup| > 0 then [Or(EqAll(orGroup))] else [])
  }

  /** Every element is present (none is `undefined`). */
  function AllPresent(ws: seq<Option<Where>>): (r: Option<seq<Where>>)
    ensures r.Some? <==> forall i :: 0 <= i < |ws| ==> ws[i].Some?
    ensures r.Some? ==> |r.value| == |ws| && forall i :: 0 <= i < |ws| ==> r.value[i] == ws[i].value
  {
    if ws == [] then Some([])
    else match ws[0]
      case None => None
      case Some(w) =>
        match AllPresent(ws[1..])
        case None => None
        case Some(rest) => Some([w] + rest)
  }

  /** `whereConvertor`: an absent list gives no predicate; a one-element list
      gives a single equality whatever its connector (none if that element is
      missing); any other length is split into the AND and OR groups.
      `schemaModel` is the table handle, `None` when the model is unknown
      (`undefined`): reading a column of it is a `TypeError`, which happens
      exactly when some clause is turned into an equality. */
  function WhereConvertor<T>(where: Option<seq<Option<Where>>>, schemaModel: Option<T>): (r: Result<seq<Pred>, AdapterError>)
    ensures where.None? ==> r == Ok([])
    ensures where.Some? && |where.value| == 1 && where.value[0].None? ==> r == Ok([])
    ensures where.Some? && |where.value| == 1 && where.value[0].Some? ==>
              r == (if schemaModel.Some? then Ok([Eq(where.value[0].value.field, where.value[0].value.value)])
                    else Err(TypeError))
    ensures r.Err? <==>
              (where.Some? &&
               if |where.value| == 1 then where.value[0].Some? && schemaModel.None?
               else (exists i :: 0 <= i < |where.value| && where.value[i].None?)
                    || (schemaModel.None? && |where.value| > 0))
    ensures r.Err? ==> r.error == TypeError
    ensures where.Some? && |where.value| != 1 && r.Ok? ==> r.value == Combine(AllPresent(where.value).value)
    ensures r.Ok? ==> |r.value| <= 2
  {
    match where
    case None => Ok([])
    case Some(ws) =>
      if |ws| == 1 then
        (match ws[0]
         case None => Ok([])
         case Some(w) => if schemaModel.None? then Err(TypeError) else Ok([Eq(w.field, w.value)]))
      else
        match AllPresent(ws)
        case None => Err(TypeError)
        case Some(clauses) =>
          if clauses != [] then
            EveryClauseGrouped(clauses);
            if schemaModel.None? then Err(TypeError) else Ok(Combine(clauses))
          else Ok(Combine(clauses))
  }

  // ---------------------------------------------------------------------
  // Meaning of a predicate over one row

  /** A clause matches a row when its equality predicate holds there. */
  predicate Matches(w: Where, row: Row) {
    Eval(Eq(w.field, w.value), row)
  }

  predicate Eval(p: Pred, row: Row) {
    match p
    case Eq(f, v) => f in row && row[f] == v
    case And(ps) => forall i :: 0 <= i < |ps| ==> Eval(ps[i], row)
    case Or(ps) => exists i :: 0 <= i < |ps| && Eval(ps[i], row)
  }

  // ---------------------------------------------------------------------
  // Properties

  /** Filtering distributes over concatenation: each group keeps the input
      order of its clauses. */
  lemma {:induction false} FilterAppend(a: seq<Where>, b: seq<Where>, keep: Where -> bool)
    ensures Filter(a + b, keep) == Filter(a, keep) + Filter(b, keep)
  {
    if a == [] {
      assert a + b == b;
    } else {
      assert (a + b)[1..] == a[1..] + b;
      FilterAppend(a[1..], b, keep);
    }
  }

  /** A clause is either conjunctive or disjunctive, never both. */
  lemma GroupExclusive(w: Where)
    ensures InAndGroup(w) != InOrGroup(w)
  {
    match w.connector
    case None =>
    case Some(c) => assert c == AND || c == OR;
  }

  /** The two groups partition the clauses: every clause lands in exactly one
      group, counted with multiplicity. */
  lemma {:induction false} GroupsPartition(ws: seq<Where>)
    ensures multiset(AndGroup(ws)) + multiset(OrGroup(ws)) == multiset(ws)
    ensures forall w :: !(w in AndGroup(ws) && w in OrGroup(ws))
  {
    if ws != [] {
      var w, rest := ws[0], ws[1..];
      GroupsPartition(rest);
      GroupExclusive(w);
      assert multiset(ws) == multiset{w} + multiset(rest) by {
        assert ws == [w] + rest;
      }
      if InAndGroup(w) {
        assert AndGroup(ws) == [w] + AndGroup(rest);
        assert OrGroup(ws) == OrGroup(rest);
      } else {
        assert AndGroup(ws) == AndGroup(rest);
        assert OrGroup(ws) == [w] + OrGroup(rest);
      }
    }
    forall w | w in AndGroup(ws) ensures w !in OrGroup(ws) {
      GroupExclusive(w);
    }
  }

  /** The AND predicate holds of a row exactly when every clause of the AND
      group matches it. */
  lemma {:induction false} AndGroupMeaning(ws: seq<Where>, row: Row)
    ensures Eval(And(EqAll(AndGroup(ws))), row) <==>
            (forall w :: w in ws && InAndGroup(w) ==> Matches(w, row))
  {
    var g := AndGroup(ws);
    var ps := EqAll(g);
    assert forall i :: 0 <= i < |ps| ==> (Eval(ps[i], row) <==> Matches(g[i], row));
    if Eval(And(ps), row) {
      forall w | w in ws && InAndGroup(w) ensures Matches(w, row) {
        var i :| 0 <= i < |g| && g[i] == w;
      }
    }
  }

  /** The OR predicate holds of a row exactly when some clause of the OR group
      matches it. */
  lemma {:induction false} OrGroupMeaning(ws: seq<Where>, row: Row)
    ensures Eval(Or(EqAll(OrGroup(ws))), row) <==>
            (exists w :: w in ws && InOrGroup(w) && Matches(w, row))
  {
    var g := OrGroup(ws);
    var ps := EqAll(g);
    assert forall i :: 0 <= i < |ps| ==> (Eval(ps[i], row) <==> Matches(g[i], row));
    if w :| w in ws && InOrGroup(w) && Matches(w, row) {
      var i :| 0 <= i < |g| && g[i] == w;
      assert Eval(ps[i], row);
    }
  }

  /** A non-empty list always has a clause in one of the two groups, so the
      several-clause path reads at least one column. */
  lemma EveryClauseGrouped(ws: seq<Where>)
    requires ws != []
    ensures |AndGroup(ws)| > 0 || |OrGroup(ws)| > 0
  {
    assert ws[0] in ws;
    GroupExclusive(ws[0]);
    if InAndGroup(ws[0]) {
      assert ws[0] in AndGroup(ws);
    } else {
      assert ws[0] in OrGroup(ws);
    }
  }

  /** An adapter call on a model that is not a key of the schema map gets
      `undefined` from `getSchema`, and converting any clause against it is a
      `TypeError`. */
  lemma UnknownModelTypeError<T>(modelName: string, schema: map<string, T>, where: seq<Option<Where>>)
    requires modelName !in schema
    requires where != [] && forall i :: 0 <= i < |where| ==> where[i].Some?
    ensures GetSchema(modelName, Some(schema)) == Ok(None)
    ensures WhereConvertor(Some(where), GetSchema(modelName, Some(schema)).value) == Err(TypeError)
  {
  }

  /** An empty list yields no predicate at all. */
  lemma EmptyListNoPredicate<T>(schemaModel: Option<T>)
    ensures WhereConvertor(Some([]), schemaModel) == Ok([])
  {
    assert AndGroup([]) == [] && OrGroup([]) == [];
  }

  /** The several-clause result holds the AND predicate iff some clause is
      conjunctive and the OR predicate iff some clause is disjunctive; when
      it holds both, AND comes first. */
  lemma {:induction false} CombineGroups(ws: seq<Where>)
    ensures And(EqAll(AndGroup(ws))) in Combine(ws) <==> exists w :: w in ws && InAndGroup(w)
    ensures Or(EqAll(OrGroup(ws))) in Combine(ws) <==> exists w :: w in ws && InOrGroup(w)
    ensures |Combine(ws)| == 2 ==> Combine(ws) == [And(EqAll(AndGroup(ws))), Or(EqAll(OrGroup(ws)))]
  {
    if |AndGroup(ws)| > 0 {
      assert AndGroup(ws)[0] in AndGroup(ws);
    }
    if |OrGroup(ws)| > 0 {
      assert OrGroup(ws)[0] in OrGroup(ws);
    }
    if w :| w in ws && InAndGroup(w) {
      assert w in AndGroup(ws);
    }
    if w :| w in ws && InOrGroup(w) {
      assert w in OrGroup(ws);
    }
  }

  /** The example of a mixed list: `[{a, 1}, {b, 2, OR}]` gives an AND
      predicate on `a = 1` and an OR predicate on `b = 2`. */
  lemma MixedConnectorsExample<T>(table: T)
    ensures WhereConvertor(Some([Some(Where("a", Num(1), None)), Some(Where("b", Num(2), Some(OR)))]), Some(table))
         == Ok([And([Eq("a", Num(1))]), Or([Eq("b", Num(2))])])
  {
    var ws := [Where("a", Num(1), None), Where("b", Num(2), Some(OR))];
    var opts := [Some(ws[0]), Some(ws[1])];
    assert opts[1..] == [Some(ws[1])];
    assert AllPresent(opts).Some?;
    assert AllPresent(opts).value == ws;
    MixedCombine(ws);
    assert WhereConvertor(Some(opts), Some(table)) == Ok(Combine(ws));
  }

  lemma MixedCombine(ws: seq<Where>)
    requires ws == [Where("a", Num(1), None), Where("b", Num(2), Some(OR))]
    ensures Combine(ws) == [And([Eq("a", Num(1))]), Or([Eq("b", Num(2))])]
  {
    assert ws[1..] == [ws[1]] && ws[1..][1..] == [];
    assert InAndGroup(ws[0]) && !InOrGroup(ws[0]) && !InAndGroup(ws[1]) && InOrGroup(ws[1]);
    assert Filter(ws[1..], InAndGroup) == [];
    assert Filter(ws[1..], InOrGroup) == [ws[1]];
    assert AndGroup(ws) == [ws[0]];
    assert OrGroup(ws) == [ws[1]];
    assert EqAll([ws[0]]) == [Eq("a", Num(1))];
    assert EqAll([ws[1]]) == [Eq("b", Num(2))];
  }
}
