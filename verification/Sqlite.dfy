/** index/sqlitevec/filter.go: a filter compiled to a WHERE expression with positional binds. Every
    Ask is one "?" of the text; the k-th one, left to right, takes the k-th argument. */
module Sqlite {
  import opened Wrappers
  import opened Order
  import opened Filters
  import opened SqlValues
  import Postgres

  datatype Arg = ArgText(s: string) | ArgNumber(x: real)

  datatype Expr =
    | Literal(holds: bool)
    | Ask
    | Word(s: string)
    | PathOf(key: Expr)                        // ('$.' || ?)
    | JsonType(path: Expr)                     // json_type(COALESCE(dm.metadata, '{}'), path)
    | JsonExtract(path: Expr)                  // json_extract(COALESCE(dm.metadata, '{}'), path)
    | EachType                                 // je.type
    | EachValue                                // je.value
    | Cmp(op: CmpOp, lhs: Expr, rhs: Expr)
    | OneOf(e: Expr, words: seq<string>)       // e IN ('..', ..)
    | IsNull(e: Expr)
    | NotNull(e: Expr)
    | AndAll(es: seq<Expr>)
    | OrAll(es: seq<Expr>)
    | Not(e: Expr)
    | ExistsEach(path: Expr, where_: Expr)     // EXISTS (SELECT 1 FROM json_each(.., path) je WHERE ..)

  /** Which JSON numbers JSON1 reports as 'integer', and the text json_extract gives for a container. */
  datatype Engine = Engine(integer: real -> bool, render: Json -> string)

  // ---- SQL semantics ----

  /** Without affinity any number sorts before any text. */
  function CompareSql(op: CmpOp, a: Sql, b: Sql): Sql {
    match (a, b)
    case (Num(x), Num(y)) => Truth(CmpHolds(op, Sign(x - y)))
    case (Str(s), Str(t)) => Truth(CmpHolds(op, Compare(s, t)))
    case (Num(_), Str(_)) => Truth(CmpHolds(op, -1))
    case (Str(_), Num(_)) => Truth(CmpHolds(op, 1))
    case _ => Null
  }

  function TypeName(eng: Engine, j: Json): string {
    match j
    case JNull => "null"
    case JBool(b) => if b then "true" else "false"
    case JNum(x) => if eng.integer(x) then "integer" else "real"
    case JText(_) => "text"
    case JArr(_) => "array"
    case JObj(_) => "object"
  }

  /** The SQL value of a JSON value: booleans become 1 and 0, a number beyond 64-bit integers a REAL. */
  function ValueOf(l: Lib, eng: Engine, j: Json): Sql {
    match j
    case JNull => Null
    case JBool(b) => Num(if b then 1.0 else 0.0)
    case JNum(x) => Num(SqliteReads(l, x))
    case JText(s) => Str(s)
    case _ => Str(eng.render(j))
  }

  /** The value at a path of the form $.label, whose label needs no quoting, in COALESCE(dm.metadata, '{}'). */
  function AtPath(row: Row, path: Sql): Option<Json> {
    if path.Str? && |path.s| > 2 && path.s[..2] == "$." && ValidKey(path.s[2..]) then At(row, path.s[2..]) else None
  }

  /** The rows json_each yields. */
  function EachOf(j: Option<Json>): set<Json> {
    match j
    case None => {}
    case Some(JArr(es)) => set e | e in es
    case Some(JObj(m)) => set k | k in m :: m[k]
    case Some(x) => {x}
  }

  /** The number of "?" in an expression. */
  function Slots(e: Expr): nat {
    match e
    case Ask => 1
    case PathOf(x) => Slots(x)
    case JsonType(x) => Slots(x)
    case JsonExtract(x) => Slots(x)
    case Cmp(_, x, y) => Slots(x) + Slots(y)
    case OneOf(x, _) => Slots(x)
    case IsNull(x) => Slots(x)
    case NotNull(x) => Slots(x)
    case Not(x) => Slots(x)
    case AndAll(es) => SlotsAll(es)
    case OrAll(es) => SlotsAll(es)
    case ExistsEach(x, y) => Slots(x) + Slots(y)
    case _ => 0
  }

  function SlotsAll(es: seq<Expr>): nat {
    if es == [] then 0 else SlotsAll(es[..|es| - 1]) + Slots(es[|es| - 1])
  }

  /** each is the current row of an enclosing json_each. */
  function Eval(l: Lib, eng: Engine, e: Expr, row: Row, each: Option<Json>, args: seq<Arg>): Sql
    requires |args| == Slots(e)
    decreases e, 1
  {
    match e
    case Literal(b) => Truth(b)
    case Ask => (match args[0] case ArgText(s) => Str(s) case ArgNumber(x) => Num(x))
    case Word(s) => Str(s)
    case PathOf(x) =>
      var v := Eval(l, eng, x, row, each, args);
      if v.Str? then Str("$." + v.s) else Null
    case JsonType(x) =>
      var j := AtPath(row, Eval(l, eng, x, row, each, args));
      if j.Some? then Str(TypeName(eng, j.value)) else Null
    case JsonExtract(x) =>
      var j := AtPath(row, Eval(l, eng, x, row, each, args));
      if j.Some? then ValueOf(l, eng, j.value) else Null
    case EachType => if each.Some? then Str(TypeName(eng, each.value)) else Null
    case EachValue => if each.Some? then ValueOf(l, eng, each.value) else Null
    case Cmp(op, x, y) =>
      CompareSql(op, Eval(l, eng, x, row, each, args[..Slots(x)]), Eval(l, eng, y, row, each, args[Slots(x)..]))
    case OneOf(x, words) =>
      var v := Eval(l, eng, x, row, each, args);
      if v == Null then Null else Truth(v.Str? && v.s in words)
    case IsNull(x) => Truth(Eval(l, eng, x, row, each, args) == Null)
    case NotNull(x) => Truth(Eval(l, eng, x, row, each, args) != Null)
    case AndAll(es) => And3(EvalAll(l, eng, es, row, each, args))
    case OrAll(es) => Or3(EvalAll(l, eng, es, row, each, args))
    case Not(x) =>
      var v := Eval(l, eng, x, row, each, args);
      if v.Truth? then Truth(!v.b) else Null
    case ExistsEach(x, y) =>
      var rows := EachOf(AtPath(row, Eval(l, eng, x, row, each, args[..Slots(x)])));
      Truth(exists j | j in rows :: IsTrue(Eval(l, eng, y, row, Some(j), args[Slots(x)..])))
  }

  function EvalAll(l: Lib, eng: Engine, es: seq<Expr>, row: Row, each: Option<Json>, args: seq<Arg>): (vs: seq<Sql>)
    requires |args| == SlotsAll(es)
    ensures |vs| == |es|
    decreases es, 0
  {
    if es == [] then []
    else
      var init, n := es[..|es| - 1], SlotsAll(es[..|es| - 1]);
      EvalAll(l, eng, init, row, each, args[..n]) + [Eval(l, eng, es[|es| - 1], row, each, args[n..])]
  }

  // ---- the builder ----

  datatype Built = Built(expr: Expr, args: seq<Arg>)
  datatype BuiltAll = BuiltAll(exprs: seq<Expr>, args: seq<Arg>)

  const TYPE_OF := JsonType(PathOf(Ask))
  const EXTRACT := JsonExtract(PathOf(Ask))
  const NUMBER_TYPES := ["integer", "real"]
  const ALWAYS_FALSE := Built(Literal(false), [])

  function TextTest(key: string, op: CmpOp, s: string): Built {
    Built(AndAll([Cmp(IsEqual, TYPE_OF, Word("text")), Cmp(op, EXTRACT, Ask)]),
      [ArgText(key), ArgText(key), ArgText(s)])
  }

  function BoolTest(key: string, b: bool): Built {
    Built(Cmp(IsEqual, TYPE_OF, Ask), [ArgText(key), ArgText(if b then "true" else "false")])
  }

  function NumberTest(key: string, op: CmpOp, x: real): Built {
    Built(AndAll([OneOf(TYPE_OF, NUMBER_TYPES), Cmp(op, EXTRACT, Ask)]), [ArgText(key), ArgText(key), ArgNumber(x)])
  }

  function Equals(l: Lib, key: string, operand: Value): Built {
    match Norm(l, operand)
    case Bool(b) => BoolTest(key, b)
    case Text(s) => TextTest(key, IsEqual, s)
    case Number(x) => NumberTest(key, IsEqual, l.round(x))
    case _ => ALWAYS_FALSE
  }

  function ElementEquals(l: Lib, operand: Value): Built {
    match Norm(l, operand)
    case Bool(b) => Built(Cmp(IsEqual, EachType, Word(if b then "true" else "false")), [])
    case Text(s) => Built(AndAll([Cmp(IsEqual, EachType, Word("text")), Cmp(IsEqual, EachValue, Ask)]), [ArgText(s)])
    case Number(x) =>
      Built(AndAll([OneOf(EachType, NUMBER_TYPES), Cmp(IsEqual, EachValue, Ask)]), [ArgNumber(l.round(x))])
    case _ => ALWAYS_FALSE
  }

  function Ordered(l: Lib, key: string, operand: Value, op: CmpOp): Built {
    match Norm(l, operand)
    case Text(s) => TextTest(key, op, s)
    case Number(x) => NumberTest(key, op, l.round(x))
    case _ => ALWAYS_FALSE
  }

  function EqualsAll(l: Lib, key: string, os: seq<Value>): BuiltAll {
    if os == [] then BuiltAll([], [])
    else
      var most, last := EqualsAll(l, key, os[..|os| - 1]), Equals(l, key, os[|os| - 1]);
      BuiltAll(most.exprs + [last.expr], most.args + last.args)
  }

  function ElementsAll(l: Lib, os: seq<Value>): BuiltAll {
    if os == [] then BuiltAll([], [])
    else
      var most, last := ElementsAll(l, os[..|os| - 1]), ElementEquals(l, os[|os| - 1]);
      BuiltAll(most.exprs + [last.expr], most.args + last.args)
  }

  function AnyTest(l: Lib, key: string, os: seq<Value>): Built {
    var all := ElementsAll(l, os);
    Built(AndAll([Cmp(IsEqual, TYPE_OF, Word("array")), ExistsEach(PathOf(Ask), OrAll(all.exprs))]),
          [ArgText(key), ArgText(key)] + all.args)
  }

  function Cond(l: Lib, c: Condition): Built
    decreases c, 1
  {
    match c.op
    case Or =>
      if Alternatives(c) == [] then ALWAYS_FALSE
      else var all := CondAll(l, c.operand.cs); Built(OrAll(all.exprs), all.args)
    case Exists =>
      var want := OperandValue(c.operand);
      if !want.Bool? then ALWAYS_FALSE
      else Built(if want.b then NotNull(TYPE_OF) else IsNull(TYPE_OF), [ArgText(c.key)])
    case Eq => Equals(l, c.key, OperandValue(c.operand))
    case Ne =>
      var eq := Equals(l, c.key, OperandValue(c.operand));
      Built(AndAll([NotNull(TYPE_OF), Not(eq.expr)]), [ArgText(c.key)] + eq.args)
    case In =>
      var all := EqualsAll(l, c.key, ToSlice(c.operand));
      if ToSlice(c.operand) == [] then ALWAYS_FALSE else Built(OrAll(all.exprs), all.args)
    case Any =>
      if ToSlice(c.operand) == [] then ALWAYS_FALSE else AnyTest(l, c.key, ToSlice(c.operand))
    case Undeclared(_) => ALWAYS_FALSE
    case Gt | Gte | Lt | Lte => Ordered(l, c.key, OperandValue(c.operand), CmpOf(c.op))
  }

  function CondAll(l: Lib, cs: seq<Condition>): BuiltAll
    decreases cs, 0
  {
    if cs == [] then BuiltAll([], [])
    else
      var most, last := CondAll(l, cs[..|cs| - 1]), Cond(l, cs[|cs| - 1]);
      BuiltAll(most.exprs + [last.expr], most.args + last.args)
  }

  function WholeFilter(l: Lib, f: Filter): Built {
    if f == [] then Built(Literal(true), [])
    else var all := CondAll(l, f); Built(AndAll(all.exprs), all.args)
  }

  // ---- correctness ----

  /** Two clauses evaluated against the concatenation of their own arguments. */
  lemma EvalPair(l: Lib, eng: Engine, x: Expr, y: Expr, row: Row, each: Option<Json>, a: seq<Arg>, b: seq<Arg>)
    requires |a| == Slots(x) && |b| == Slots(y)
    ensures Slots(AndAll([x, y])) == |a + b|
    ensures var v, w := Eval(l, eng, x, row, each, a), Eval(l, eng, y, row, each, b);
      Eval(l, eng, AndAll([x, y]), row, each, a + b)
      == if v == Truth(false) || w == Truth(false) then Truth(false)
         else if IsTrue(v) && IsTrue(w) then Truth(true) else Null
  {
    hide Eval, EvalAll, Slots, SlotsAll;
    var v, w := Eval(l, eng, x, row, each, a), Eval(l, eng, y, row, each, b);
    EvalNone(l, eng, row, each);
    EvalOneMore(l, eng, [], x, row, each, [], a);
    assert [] + [x] == [x] && [] + a == a && [] + [v] == [v];
    EvalOneMore(l, eng, [x], y, row, each, a, b);
    assert [x] + [y] == [x, y] && [v] + [w] == [v, w];
    EvalClauses(l, eng, [x, y], row, each, a + b);
    assert v in [v, w] && w in [v, w];
  }

  lemma EvalCmp(l: Lib, eng: Engine, op: CmpOp, x: Expr, y: Expr, row: Row, each: Option<Json>, a: seq<Arg>,
      b: seq<Arg>)
    requires |a| == Slots(x) && |b| == Slots(y)
    ensures Eval(l, eng, Cmp(op, x, y), row, each, a + b)
         == CompareSql(op, Eval(l, eng, x, row, each, a), Eval(l, eng, y, row, each, b))
  {
    assert (a + b)[..|a|] == a && (a + b)[|a|..] == b;
  }

  /** The path built from a valid key finds the value under that key. */
  lemma EvalKey(l: Lib, eng: Engine, key: string, row: Row, each: Option<Json>)
    requires ValidKey(key)
    ensures Eval(l, eng, TYPE_OF, row, each, [ArgText(key)])
         == if At(row, key).Some? then Str(TypeName(eng, At(row, key).value)) else Null
    ensures Eval(l, eng, EXTRACT, row, each, [ArgText(key)])
         == if At(row, key).Some? then ValueOf(l, eng, At(row, key).value) else Null
    ensures AtPath(row, Eval(l, eng, PathOf(Ask), row, each, [ArgText(key)])) == At(row, key)
  {
    var args := [ArgText(key)];
    assert Eval(l, eng, Ask, row, each, args) == Str(key);
    assert Eval(l, eng, PathOf(Ask), row, each, args) == Str("$." + key);
    assert ("$." + key)[2..] == key && ("$." + key)[..2] == "$.";
  }

  lemma TypeNameIs(eng: Engine, j: Json)
    ensures TypeName(eng, j) == "text" <==> j.JText?
    ensures TypeName(eng, j) in NUMBER_TYPES <==> j.JNum?
    ensures TypeName(eng, j) == "array" <==> j.JArr?
    ensures TypeName(eng, j) == "true" <==> j == JBool(true)
    ensures TypeName(eng, j) == "false" <==> j == JBool(false)
  {
    assert "null"[0] == 'n' && "true"[0] == 't' && "true"[1] == 'r' && "false"[0] == 'f' && "integer"[0] == 'i';
    assert "real"[0] == 'r' && "text"[0] == 't' && "text"[1] == 'e' && "array"[0] == 'a' && "object"[0] == 'o';
    assert "integer" in NUMBER_TYPES && "real" in NUMBER_TYPES;
  }

  lemma TextTestCorrect(l: Lib, eng: Engine, key: string, op: CmpOp, s: string, row: Row)
    requires ValidKey(key)
    ensures var b := TextTest(key, op, s);
      && |b.args| == Slots(b.expr)
      && var v := Eval(l, eng, b.expr, row, None, b.args);
         match At(row, key)
         case None => !IsTrue(v)
         case Some(j) => v == Truth(j.JText? && CmpHolds(op, Compare(j.s, s)))
  {
    hide AtPath, EachOf, And3, Or3, TypeName;
    var k := [ArgText(key)];
    TypeGuard(l, eng, key, "text", row);
    TypeNames(eng);
    TextCompare(l, eng, key, op, s, row);
    EvalPair(l, eng, Cmp(IsEqual, TYPE_OF, Word("text")), Cmp(op, EXTRACT, Ask), row, None, k, k + [ArgText(s)]);
    assert k + (k + [ArgText(s)]) == TextTest(key, op, s).args;
    hide Eval, Slots;
  }

  lemma TypeNames(eng: Engine)
    ensures forall j :: (TypeName(eng, j) == "text" <==> j.JText?) && (TypeName(eng, j) == "array" <==> j.JArr?)
  {
    forall j ensures (TypeName(eng, j) == "text" <==> j.JText?) && (TypeName(eng, j) == "array" <==> j.JArr?) {
      TypeNameIs(eng, j);
    }
  }

  lemma TypeGuard(l: Lib, eng: Engine, key: string, name: string, row: Row)
    requires ValidKey(key)
    ensures Slots(Cmp(IsEqual, TYPE_OF, Word(name))) == 1
    ensures Eval(l, eng, Cmp(IsEqual, TYPE_OF, Word(name)), row, None, [ArgText(key)])
         == if At(row, key).Some? then Truth(TypeName(eng, At(row, key).value) == name) else Null
  {
    hide AtPath, EachOf, And3, Or3, TypeName;
    EvalKey(l, eng, key, row, None);
    EvalCmp(l, eng, IsEqual, TYPE_OF, Word(name), row, None, [ArgText(key)], []);
    assert [ArgText(key)] + [] == [ArgText(key)];
    assert Eval(l, eng, Word(name), row, None, []) == Str(name);
    if At(row, key).Some? { CompareZero(TypeName(eng, At(row, key).value), name); }
  }

  lemma TextCompare(l: Lib, eng: Engine, key: string, op: CmpOp, s: string, row: Row)
    requires ValidKey(key)
    ensures Slots(Cmp(op, EXTRACT, Ask)) == 2
    ensures At(row, key).Some? && At(row, key).value.JText? ==>
      Eval(l, eng, Cmp(op, EXTRACT, Ask), row, None, [ArgText(key)] + [ArgText(s)])
      == Truth(CmpHolds(op, Compare(At(row, key).value.s, s)))
  {
    hide AtPath, EachOf, And3, Or3, TypeName;
    EvalKey(l, eng, key, row, None);
    EvalCmp(l, eng, op, EXTRACT, Ask, row, None, [ArgText(key)], [ArgText(s)]);
    assert Eval(l, eng, Ask, row, None, [ArgText(s)]) == Str(s);
  }

  lemma NumberTestCorrect(l: Lib, eng: Engine, key: string, op: CmpOp, x: real, row: Row)
    requires ValidKey(key)
    ensures var b := NumberTest(key, op, x);
      && |b.args| == Slots(b.expr)
      && var v := Eval(l, eng, b.expr, row, None, b.args);
         match At(row, key)
         case None => !IsTrue(v)
         case Some(j) => v == Truth(j.JNum? && CmpHolds(op, Sign(SqliteReads(l, j.x) - x)))
  {
    hide AtPath, EachOf, And3, Or3;
    var k := [ArgText(key)];
    EvalKey(l, eng, key, row, None);
    EvalCmp(l, eng, op, EXTRACT, Ask, row, None, k, [ArgNumber(x)]);
    EvalPair(l, eng, OneOf(TYPE_OF, NUMBER_TYPES), Cmp(op, EXTRACT, Ask), row, None, k, k + [ArgNumber(x)]);
    assert k + (k + [ArgNumber(x)]) == NumberTest(key, op, x).args;
    hide Slots;
    if At(row, key).Some? { TypeNameIs(eng, At(row, key).value); }
  }

  lemma BoolTestCorrect(l: Lib, eng: Engine, key: string, b: bool, row: Row)
    requires ValidKey(key)
    ensures var t := BoolTest(key, b);
      && |t.args| == Slots(t.expr)
      && var v := Eval(l, eng, t.expr, row, None, t.args);
         match At(row, key)
         case None => !IsTrue(v)
         case Some(j) => v == Truth(j == JBool(b))
  {
    hide AtPath, EachOf, And3, Or3;
    var want := if b then "true" else "false";
    EvalKey(l, eng, key, row, None);
    EvalCmp(l, eng, IsEqual, TYPE_OF, Ask, row, None, [ArgText(key)], [ArgText(want)]);
    assert [ArgText(key)] + [ArgText(want)] == BoolTest(key, b).args;
    if At(row, key).Some? {
      TypeNameIs(eng, At(row, key).value);
      CompareZero(TypeName(eng, At(row, key).value), want);
    }
  }

  lemma AlwaysFalseTest(l: Lib, eng: Engine, row: Row, each: Option<Json>)
    ensures |ALWAYS_FALSE.args| == Slots(ALWAYS_FALSE.expr)
    ensures Eval(l, eng, ALWAYS_FALSE.expr, row, each, ALWAYS_FALSE.args) == Truth(false)
  {
  }

  /** An equality is never NULL on a document that has the key, and never TRUE on one that has not. */
  lemma EqualsCorrect(l: Lib, eng: Engine, key: string, o: Value, row: Row)
    requires ValidKey(key)
    ensures var b := Equals(l, key, o);
      && |b.args| == Slots(b.expr)
      && var v := Eval(l, eng, b.expr, row, None, b.args);
         match At(row, key)
         case None => !IsTrue(v)
         case Some(j) => v == Truth(SameKind(JsonKind(l, SqliteReader, j), KindOf(l, o)))
  {
    AlwaysFalseTest(l, eng, row, None);
    hide Eval, Slots, BoolTest, TextTest, NumberTest;
    match Norm(l, o)
    case Bool(b) => BoolTestCorrect(l, eng, key, b, row);
    case Text(s) =>
      TextTestCorrect(l, eng, key, IsEqual, s, row);
      if At(row, key).Some? && At(row, key).value.JText? { CompareZero(At(row, key).value.s, s); }
    case Number(x) =>
      NumberTestCorrect(l, eng, key, IsEqual, l.round(x), row);
      if At(row, key).Some? && At(row, key).value.JNum? { NumberOrder(l, At(row, key).value.x, l.round(x)); }
    case _ =>
  }

  lemma ElementWord(l: Lib, eng: Engine, word: string, row: Row, j: Json)
    ensures Slots(Cmp(IsEqual, EachType, Word(word))) == 0
    ensures Eval(l, eng, Cmp(IsEqual, EachType, Word(word)), row, Some(j), []) == Truth(TypeName(eng, j) == word)
  {
    EvalCmp(l, eng, IsEqual, EachType, Word(word), row, Some(j), [], []);
    CompareZero(TypeName(eng, j), word);
  }

  lemma ElementText(l: Lib, eng: Engine, s: string, row: Row, j: Json)
    ensures var e := AndAll([Cmp(IsEqual, EachType, Word("text")), Cmp(IsEqual, EachValue, Ask)]);
      Slots(e) == 1 && (IsTrue(Eval(l, eng, e, row, Some(j), [ArgText(s)])) <==> j == JText(s))
  {
    hide AtPath, EachOf, And3, Or3;
    ElementWord(l, eng, "text", row, j);
    TypeNameIs(eng, j);
    EachText(l, eng, s, row, j);
    EvalPair(l, eng, Cmp(IsEqual, EachType, Word("text")), Cmp(IsEqual, EachValue, Ask),
      row, Some(j), [], [ArgText(s)]);
    assert [] + [ArgText(s)] == [ArgText(s)];
    hide Eval;
  }

  lemma EachText(l: Lib, eng: Engine, s: string, row: Row, j: Json)
    ensures Slots(Cmp(IsEqual, EachValue, Ask)) == 1
    ensures j.JText? ==> Eval(l, eng, Cmp(IsEqual, EachValue, Ask), row, Some(j), [ArgText(s)]) == Truth(j.s == s)
  {
    EachOperands(l, eng, s, row, j);
    EvalCmp(l, eng, IsEqual, EachValue, Ask, row, Some(j), [], [ArgText(s)]);
    hide Eval;
    assert [] + [ArgText(s)] == [ArgText(s)];
    if j.JText? { CompareZero(j.s, s); }
  }

  lemma EachOperands(l: Lib, eng: Engine, s: string, row: Row, j: Json)
    ensures Eval(l, eng, EachValue, row, Some(j), []) == ValueOf(l, eng, j)
    ensures Eval(l, eng, Ask, row, Some(j), [ArgText(s)]) == Str(s)
  {
    hide AtPath, EachOf, And3, Or3, TypeName, ValueOf;
  }

  lemma ElementNumber(l: Lib, eng: Engine, x: real, row: Row, j: Json)
    ensures var e := AndAll([OneOf(EachType, NUMBER_TYPES), Cmp(IsEqual, EachValue, Ask)]);
      Slots(e) == 1 && (IsTrue(Eval(l, eng, e, row, Some(j), [ArgNumber(x)])) <==> j.JNum? && SqliteReads(l, j.x) == x)
  {
    hide AtPath, EachOf, And3, Or3;
    TypeNameIs(eng, j);
    EvalCmp(l, eng, IsEqual, EachValue, Ask, row, Some(j), [], [ArgNumber(x)]);
    assert [] + [ArgNumber(x)] == [ArgNumber(x)];
    EvalPair(l, eng, OneOf(EachType, NUMBER_TYPES), Cmp(IsEqual, EachValue, Ask), row, Some(j), [], [ArgNumber(x)]);
  }

  lemma ElementCorrect(l: Lib, eng: Engine, o: Value, row: Row, j: Json)
    ensures var b := ElementEquals(l, o);
      && |b.args| == Slots(b.expr)
      && (IsTrue(Eval(l, eng, b.expr, row, Some(j), b.args)) <==> SameKind(JsonKind(l, SqliteReader, j), KindOf(l, o)))
  {
    AlwaysFalseTest(l, eng, row, Some(j));
    hide Eval, Slots, Side;
    match Norm(l, o)
    case Bool(b) => ElementWord(l, eng, if b then "true" else "false", row, j); TypeNameIs(eng, j);
    case Text(s) => ElementText(l, eng, s, row, j);
    case Number(x) =>
      ElementNumber(l, eng, l.round(x), row, j);
      if j.JNum? { NumberOrder(l, j.x, l.round(x)); }
    case _ =>
  }

  /** Appending a clause appends its arguments: the earlier clauses keep theirs. */
  lemma EvalOneMore(l: Lib, eng: Engine, es: seq<Expr>, e: Expr, row: Row, each: Option<Json>, a: seq<Arg>, b: seq<Arg>)
    requires |a| == SlotsAll(es) && |b| == Slots(e)
    ensures SlotsAll(es + [e]) == |a + b|
    ensures EvalAll(l, eng, es + [e], row, each, a + b)
      == EvalAll(l, eng, es, row, each, a) + [Eval(l, eng, e, row, each, b)]
  {
    assert (es + [e])[..|es|] == es;
    assert (a + b)[..|a|] == a && (a + b)[|a|..] == b;
  }

  lemma OneOfAll(vs: seq<Sql>)
    ensures IsTrue(Or3(vs)) <==> Truth(true) in vs
    ensures IsTrue(And3(vs)) <==> forall i | 0 <= i < |vs| :: IsTrue(vs[i])
  {
  }

  lemma {:induction false} EqualsAllCorrect(l: Lib, eng: Engine, key: string, os: seq<Value>, row: Row)
    requires ValidKey(key)
    ensures var all := EqualsAll(l, key, os);
      && |all.args| == SlotsAll(all.exprs)
      && (IsTrue(Or3(EvalAll(l, eng, all.exprs, row, None, all.args))) <==>
            At(row, key).Some?
            && exists o | o in os :: SameKind(JsonKind(l, SqliteReader, At(row, key).value), KindOf(l, o)))
  {
    hide And3, CompareSql, AtPath, ValueOf, EachOf, TypeName, Eval, EvalAll, SlotsAll, Slots, Equals,
      SameKind, KindOf, JsonKind;
    if os != [] {
      var init, o := os[..|os| - 1], os[|os| - 1];
      var most, last := EqualsAll(l, key, init), Equals(l, key, o);
      EqualsAllCorrect(l, eng, key, init, row);
      EqualsCorrect(l, eng, key, o, row);
      EvalOneMore(l, eng, most.exprs, last.expr, row, None, most.args, last.args);
      assert os == init + [o];
    } else {
      EvalNone(l, eng, row, None);
    }
  }

  lemma EvalNone(l: Lib, eng: Engine, row: Row, each: Option<Json>)
    ensures SlotsAll([]) == 0 && EvalAll(l, eng, [], row, each, []) == []
  {
  }

  lemma {:induction false} ElementsAllCorrect(l: Lib, eng: Engine, os: seq<Value>, row: Row, j: Json)
    ensures var all := ElementsAll(l, os);
      && |all.args| == SlotsAll(all.exprs)
      && (IsTrue(Or3(EvalAll(l, eng, all.exprs, row, Some(j), all.args))) <==>
            exists o | o in os :: SameKind(JsonKind(l, SqliteReader, j), KindOf(l, o)))
  {
    hide And3, CompareSql, AtPath, ValueOf, EachOf, TypeName, Eval, EvalAll, SlotsAll, Slots, ElementEquals,
      SameKind, KindOf, JsonKind;
    if os != [] {
      var init, o := os[..|os| - 1], os[|os| - 1];
      var most, last := ElementsAll(l, init), ElementEquals(l, o);
      ElementsAllCorrect(l, eng, init, row, j);
      ElementCorrect(l, eng, o, row, j);
      EvalOneMore(l, eng, most.exprs, last.expr, row, Some(j), most.args, last.args);
      assert os == init + [o];
    } else {
      EvalNone(l, eng, row, Some(j));
    }
  }

  /** A compiled condition consumes exactly its own arguments and is TRUE exactly where the condition matches. */
  predicate Right(l: Lib, eng: Engine, b: Built, c: Condition, row: Row) {
    |b.args| == Slots(b.expr)
    && (IsTrue(Eval(l, eng, b.expr, row, None, b.args)) <==> SightMatches(l, c, SeeRow(l, SqliteReader, row)))
  }

  lemma {:induction false} CondCorrect(l: Lib, eng: Engine, c: Condition, row: Row)
    requires ValidCondition(c)
    ensures Right(l, eng, Cond(l, c), c, row)
    decreases c, 1
  {
    if c.op == Or {
      if Alternatives(c) != [] {
        CondAllCorrect(l, eng, c.operand.cs, row);
        OrCorrect(l, eng, c, row);
      }
    } else {
      SimpleCondCorrect(l, eng, c, row);
    }
  }

  /** Clause by clause, TRUE where the condition matches. */
  predicate AllRight(l: Lib, eng: Engine, all: BuiltAll, cs: seq<Condition>, row: Row) {
    && |all.exprs| == |cs| && |all.args| == SlotsAll(all.exprs)
    && var vs := EvalAll(l, eng, all.exprs, row, None, all.args);
       forall i | 0 <= i < |cs| :: IsTrue(vs[i]) <==> SightMatches(l, cs[i], SeeRow(l, SqliteReader, row))
  }

  lemma Joined(l: Lib, eng: Engine, all: BuiltAll, cs: seq<Condition>, row: Row)
    requires AllRight(l, eng, all, cs, row)
    ensures var vs := EvalAll(l, eng, all.exprs, row, None, all.args);
      && (IsTrue(Or3(vs)) <==> exists c | c in cs :: SightMatches(l, c, SeeRow(l, SqliteReader, row)))
      && (IsTrue(And3(vs)) <==> forall c | c in cs :: SightMatches(l, c, SeeRow(l, SqliteReader, row)))
  {
    var vs := EvalAll(l, eng, all.exprs, row, None, all.args);
    OneOfAll(vs);
    Pointwise(vs, cs, v => IsTrue(v), c => SightMatches(l, c, SeeRow(l, SqliteReader, row)));
  }

  lemma OrCorrect(l: Lib, eng: Engine, c: Condition, row: Row)
    requires c.op == Or && c.operand.Conditions? && c.operand.cs != []
    requires AllRight(l, eng, CondAll(l, c.operand.cs), c.operand.cs, row)
    ensures Right(l, eng, Cond(l, c), c, row)
  {
    var all := CondAll(l, c.operand.cs);
    Joined(l, eng, all, c.operand.cs, row);
    EvalClauses(l, eng, all.exprs, row, None, all.args);
    hide CondAll, Eval, Slots, SlotsAll, EvalAll;
  }

  lemma SimpleCondCorrect(l: Lib, eng: Engine, c: Condition, row: Row)
    requires ValidCondition(c) && c.op != Or
    ensures Right(l, eng, Cond(l, c), c, row)
  {
    hide Eval, Slots, SightMatches, SeeRow;
    match c.op
    case Exists => ExistsCorrect(l, eng, c, row);
    case Eq | Undeclared(_) => EqCorrect(l, eng, c, row);
    case Ne => NeCorrect(l, eng, c, row);
    case In => InCorrect(l, eng, c, row);
    case Any => AnyCorrect(l, eng, c, row);
    case Gt | Gte | Lt | Lte => OrderedCorrect(l, eng, c, row);
  }

  lemma ExistsCorrect(l: Lib, eng: Engine, c: Condition, row: Row)
    requires ValidCondition(c) && c.op == Exists
    ensures Right(l, eng, Cond(l, c), c, row)
  {
    hide CompareSql, ValueOf, EachOf, And3, Or3;
    EvalKey(l, eng, c.key, row, None);
  }

  lemma EqCorrect(l: Lib, eng: Engine, c: Condition, row: Row)
    requires ValidCondition(c) && (c.op == Eq || c.op.Undeclared?)
    ensures Right(l, eng, Cond(l, c), c, row)
  {
    hide Eval, Slots, Equals, KindOf, JsonKind;
    AlwaysFalseTest(l, eng, row, None);
    if c.op == Eq { EqualsCorrect(l, eng, c.key, OperandValue(c.operand), row); }
  }

  lemma InCorrect(l: Lib, eng: Engine, c: Condition, row: Row)
    requires ValidCondition(c) && c.op == In
    ensures Right(l, eng, Cond(l, c), c, row)
  {
    hide And3, CompareSql, AtPath, ValueOf, EachOf, TypeName, Or3, Equals, SightMatches, SeeRow,
      SameKind, KindOf, JsonKind;
    var os := ToSlice(c.operand);
    InBySight(l, c, row);
    if os != [] {
      var all := EqualsAll(l, c.key, os);
      EqualsAllCorrect(l, eng, c.key, os, row);
      EvalClauses(l, eng, all.exprs, row, None, all.args);
      hide Eval, Slots, SlotsAll;
    }
  }

  lemma EvalClauses(l: Lib, eng: Engine, es: seq<Expr>, row: Row, each: Option<Json>, args: seq<Arg>)
    requires |args| == SlotsAll(es)
    ensures Slots(OrAll(es)) == SlotsAll(es) == Slots(AndAll(es))
    ensures Eval(l, eng, OrAll(es), row, each, args) == Or3(EvalAll(l, eng, es, row, each, args))
    ensures Eval(l, eng, AndAll(es), row, each, args) == And3(EvalAll(l, eng, es, row, each, args))
  {
    hide And3, Or3, CompareSql, AtPath, ValueOf, EachOf, TypeName;
  }

  /** json_each over the value under key: some row satisfies y. */
  lemma EvalEach(l: Lib, eng: Engine, key: string, y: Expr, row: Row, args: seq<Arg>)
    requires ValidKey(key) && |args| == Slots(y)
    ensures |[ArgText(key)] + args| == Slots(ExistsEach(PathOf(Ask), y))
    ensures Eval(l, eng, ExistsEach(PathOf(Ask), y), row, None, [ArgText(key)] + args)
         == Truth(exists j | j in EachOf(At(row, key)) :: IsTrue(Eval(l, eng, y, row, Some(j), args)))
  {
    hide And3, Or3, CompareSql, ValueOf, EachOf, TypeName;
    var k := [ArgText(key)];
    EvalKey(l, eng, key, row, None);
    assert (k + args)[..1] == k && (k + args)[1..] == args;
  }

  lemma InBySight(l: Lib, c: Condition, row: Row)
    requires c.op == In
    ensures SightMatches(l, c, SeeRow(l, SqliteReader, row)) <==>
      At(row, c.key).Some?
      && exists o | o in ToSlice(c.operand) :: SameKind(JsonKind(l, SqliteReader, At(row, c.key).value), KindOf(l, o))
  {
  }

  predicate Shares(l: Lib, rows: set<Json>, os: seq<Value>) {
    exists j | j in rows :: exists o | o in os :: SameKind(JsonKind(l, SqliteReader, j), KindOf(l, o))
  }

  lemma MemberBySight(l: Lib, c: Condition, row: Row)
    requires c.op == Any
    ensures SightMatches(l, c, SeeRow(l, SqliteReader, row)) <==>
      At(row, c.key).Some? && At(row, c.key).value.JArr?
      && Shares(l, EachOf(At(row, c.key)), ToSlice(c.operand))
  {
    if At(row, c.key).Some? && At(row, c.key).value.JArr? {
      var j := At(row, c.key).value;
      assert SeeRow(l, SqliteReader, row)[c.key] == JsonSight(l, SqliteReader, j);
      assert EachOf(Some(j)) == set e | e in j.elems;
    }
  }

  lemma NeCorrect(l: Lib, eng: Engine, c: Condition, row: Row)
    requires ValidCondition(c) && c.op == Ne
    ensures Right(l, eng, Cond(l, c), c, row)
  {
    hide And3, Or3, CompareSql, EachOf, ValueOf, TypeName, Equals;
    var eq := Equals(l, c.key, OperandValue(c.operand));
    EvalKey(l, eng, c.key, row, None);
    EqualsCorrect(l, eng, c.key, OperandValue(c.operand), row);
    EvalPair(l, eng, NotNull(TYPE_OF), Not(eq.expr), row, None, [ArgText(c.key)], eq.args);
  }

  lemma OrderedBySight(l: Lib, c: Condition, row: Row)
    requires c.op in {Gt, Gte, Lt, Lte}
    ensures SightMatches(l, c, SeeRow(l, SqliteReader, row)) <==>
      At(row, c.key).Some?
      && var cmp := CompareKinds(JsonKind(l, SqliteReader, At(row, c.key).value), KindOf(l, OperandValue(c.operand)));
         cmp.Some? && OrderHolds(c.op, cmp.value)
  {
  }

  lemma OrderedCorrect(l: Lib, eng: Engine, c: Condition, row: Row)
    requires ValidCondition(c) && c.op in {Gt, Gte, Lt, Lte}
    ensures Right(l, eng, Cond(l, c), c, row)
  {
    OrderedBySight(l, c, row);
    OrderedTest(l, eng, c.key, OperandValue(c.operand), c.op, row);
    hide SightMatches, SeeRow, Eval, Slots, KindOf, JsonKind;
  }

  lemma OrderedTest(l: Lib, eng: Engine, key: string, o: Value, op: FilterOp, row: Row)
    requires ValidKey(key) && op in {Gt, Gte, Lt, Lte}
    ensures var b := Ordered(l, key, o, CmpOf(op));
      && |b.args| == Slots(b.expr)
      && (IsTrue(Eval(l, eng, b.expr, row, None, b.args)) <==>
            At(row, key).Some?
            && var cmp := CompareKinds(JsonKind(l, SqliteReader, At(row, key).value), KindOf(l, o));
               cmp.Some? && OrderHolds(op, cmp.value))
  {
    AlwaysFalseTest(l, eng, row, None);
    hide Eval, Slots, TextTest, NumberTest, Side, SqliteReads, AtPath;
    match Norm(l, o)
    case Text(s) => TextTestCorrect(l, eng, key, CmpOf(op), s, row);
    case Number(x) =>
      NumberTestCorrect(l, eng, key, CmpOf(op), l.round(x), row);
      if At(row, key).Some? && At(row, key).value.JNum? { NumberOrder(l, At(row, key).value.x, l.round(x)); }
    case _ =>
  }

  /** json_each over an array: the type guard and the subquery together test membership. */
  lemma AnyCorrect(l: Lib, eng: Engine, c: Condition, row: Row)
    requires ValidCondition(c) && c.op == Any
    ensures Right(l, eng, Cond(l, c), c, row)
  {
    hide Eval, Slots, SightMatches, SeeRow, AnyTest;
    MemberBySight(l, c, row);
    AlwaysFalseTest(l, eng, row, None);
    AnyValue(l, eng, c.key, ToSlice(c.operand), row);
  }

  lemma AnyValue(l: Lib, eng: Engine, key: string, os: seq<Value>, row: Row)
    requires ValidKey(key)
    ensures var b := AnyTest(l, key, os);
      && |b.args| == Slots(b.expr)
      && (IsTrue(Eval(l, eng, b.expr, row, None, b.args)) <==>
            At(row, key).Some? && At(row, key).value.JArr?
            && Shares(l, EachOf(At(row, key)), os))
  {
    hide And3, Or3, CompareSql, EachOf, Shares, ElementsAll, ValueOf, TypeName, AtPath;
    var k, all := [ArgText(key)], ElementsAll(l, os);
    var isArray, each := Cmp(IsEqual, TYPE_OF, Word("array")), ExistsEach(PathOf(Ask), OrAll(all.exprs));
    TypeGuard(l, eng, key, "array", row);
    TypeNames(eng);
    EachCorrect(l, eng, key, os, row);
    EvalPair(l, eng, isArray, each, row, None, k, k + all.args);
    assert k + (k + all.args) == AnyTest(l, key, os).args;
    hide Eval;
  }

  lemma EachCorrect(l: Lib, eng: Engine, key: string, os: seq<Value>, row: Row)
    requires ValidKey(key)
    ensures var all := ElementsAll(l, os);
      var each := ExistsEach(PathOf(Ask), OrAll(all.exprs));
      && |[ArgText(key)] + all.args| == Slots(each)
      && (IsTrue(Eval(l, eng, each, row, None, [ArgText(key)] + all.args)) <==>
            Shares(l, EachOf(At(row, key)), os))
  {
    var all := ElementsAll(l, os);
    ElementsAllCorrect(l, eng, os, row, JNull);
    EvalClauses(l, eng, all.exprs, row, None, all.args);
    EvalEach(l, eng, key, OrAll(all.exprs), row, all.args);
    hide Eval, Slots, SlotsAll, And3, Or3, EachOf, SameKind, KindOf, JsonKind;
    forall j
      ensures IsTrue(Eval(l, eng, OrAll(all.exprs), row, Some(j), all.args))
         <==> exists o | o in os :: SameKind(JsonKind(l, SqliteReader, j), KindOf(l, o))
    {
      ElementsAllCorrect(l, eng, os, row, j);
      EvalClauses(l, eng, all.exprs, row, Some(j), all.args);
    }
  }

  lemma {:induction false} CondAllCorrect(l: Lib, eng: Engine, cs: seq<Condition>, row: Row)
    requires forall c | c in cs :: ValidCondition(c)
    ensures AllRight(l, eng, CondAll(l, cs), cs, row)
    decreases cs, 0
  {
    hide Eval, Cond, Right, SightMatches;
    if cs != [] {
      var init, c := cs[..|cs| - 1], cs[|cs| - 1];
      CondAllCorrect(l, eng, init, row);
      CondCorrect(l, eng, c, row);
      OneMoreRight(l, eng, CondAll(l, init), init, Cond(l, c), c, row);
      assert cs == init + [c];
    }
  }

  lemma {:induction false} OneMoreRight(l: Lib, eng: Engine, most: BuiltAll, init: seq<Condition>, last: Built,
      c: Condition, row: Row)
    requires AllRight(l, eng, most, init, row) && Right(l, eng, last, c, row)
    ensures AllRight(l, eng, BuiltAll(most.exprs + [last.expr], most.args + last.args), init + [c], row)
  {
    EvalOneMore(l, eng, most.exprs, last.expr, row, None, most.args, last.args);
  }

  /** The joined clause takes as many arguments as there are, and against them it keeps the rows the
      filter rules keep. */
  lemma FilterCorrect(l: Lib, eng: Engine, f: Filter, row: Row)
    requires Valid(f)
    ensures var b := WholeFilter(l, f);
      && |b.args| == Slots(b.expr)
      && (IsTrue(Eval(l, eng, b.expr, row, None, b.args))
          <==> forall c | c in f :: SightMatches(l, c, SeeRow(l, SqliteReader, row)))
  {
    hide And3, CompareSql, AtPath, ValueOf, EachOf, TypeName, SightMatches, SeeRow, Cond, Or3;
    if f != [] {
      CondAllCorrect(l, eng, f, row);
      Joined(l, eng, CondAll(l, f), f, row);
      EvalClauses(l, eng, CondAll(l, f).exprs, row, None, CondAll(l, f).args);
      hide Eval, EvalAll, Slots, SlotsAll;
    }
  }

  /** The document is selected by the pushed-down query. */
  predicate Keeps(l: Lib, eng: Engine, f: Filter, row: Row)
    requires Valid(f)
  {
    var b := WholeFilter(l, f);
    FilterCorrect(l, eng, f, row);
    IsTrue(Eval(l, eng, b.expr, row, None, b.args))
  }

  /** Pushing a valid filter down to SQLite selects the documents Filter.Matches selects over the stored metadata
      exactly when each stored number is a float64 or no 64-bit integer. */
  lemma PushDownPreservesMeaning(l: Lib, eng: Engine, meta: Metadata)
    ensures (forall f | Valid(f) :: Keeps(l, eng, f, Store(l, meta)) <==> Matches(l, f, Load(l, Store(l, meta))))
       <==> Exact(l, SqliteReader, Store(l, meta))
  {
    hide Keeps, Matches, Exact, Store, Load;
    SqlSeesWhatGoSees(l, SqliteReader, meta);
    var row, back := Store(l, meta), Load(l, Store(l, meta));
    if Exact(l, SqliteReader, row) {
      forall f | Valid(f) ensures Keeps(l, eng, f, row) <==> Matches(l, f, back) { KeepsAlike(l, eng, f, row, back); }
    } else {
      var c :| ValidCondition(c) && SightMatches(l, c, SeeRow(l, SqliteReader, row)) != ConditionMatches(l, c, back);
      KeepsApart(l, eng, c, row, back);
    }
  }

  lemma KeepsAlike(l: Lib, eng: Engine, f: Filter, row: Row, meta: Metadata)
    requires Valid(f)
    requires forall c | ValidCondition(c) ::
      SightMatches(l, c, SeeRow(l, SqliteReader, row)) <==> ConditionMatches(l, c, meta)
    ensures Keeps(l, eng, f, row) <==> Matches(l, f, meta)
  {
    hide SightMatches, SeeRow, WholeFilter, Eval, ConditionMatches, ValidCondition;
    FilterCorrect(l, eng, f, row);
  }

  lemma KeepsApart(l: Lib, eng: Engine, c: Condition, row: Row, meta: Metadata)
    requires ValidCondition(c) && SightMatches(l, c, SeeRow(l, SqliteReader, row)) != ConditionMatches(l, c, meta)
    ensures Valid([c]) && Keeps(l, eng, [c], row) != Matches(l, [c], meta)
  {
    hide SightMatches, SeeRow, WholeFilter, Eval, ConditionMatches, ValidCondition;
    assert c in [c];
    FilterCorrect(l, eng, [c], row);
  }

  /** Both backends keep the same documents for every valid filter exactly when they see each stored number on the same
      side of its float64: an unsigned integer above 2^63 is a float64 to SQLite and itself to PostgreSQL. */
  lemma BackendsAgree(l: Lib, lite: Engine, pg: Postgres.Engine, row: Row)
    ensures (forall f | Valid(f) :: Keeps(l, lite, f, row) <==> Postgres.Keeps(l, pg, f, row))
       <==> RowReadAlike(l, SqliteReader, PostgresReader, row)
  {
    hide Cond, WholeFilter, Keeps, Postgres.Keeps, RowReadAlike, SightMatches, SeeRow;
    ReadersAgree(l, SqliteReader, PostgresReader, row);
    forall f | Valid(f) { BackendsBySight(l, lite, pg, f, row); }
    if !RowReadAlike(l, SqliteReader, PostgresReader, row) {
      var c :| ValidCondition(c)
            && SightMatches(l, c, SeeRow(l, SqliteReader, row)) != SightMatches(l, c, SeeRow(l, PostgresReader, row));
      OneTells(l, lite, pg, c, row);
    }
  }

  lemma BackendsBySight(l: Lib, lite: Engine, pg: Postgres.Engine, f: Filter, row: Row)
    requires Valid(f)
    ensures Keeps(l, lite, f, row) <==> forall c | c in f :: SightMatches(l, c, SeeRow(l, SqliteReader, row))
    ensures Postgres.Keeps(l, pg, f, row) <==> forall c | c in f :: SightMatches(l, c, SeeRow(l, PostgresReader, row))
    ensures RowReadAlike(l, SqliteReader, PostgresReader, row) ==>
      (Keeps(l, lite, f, row) <==> Postgres.Keeps(l, pg, f, row))
  {
    hide SightMatches, SeeRow, RowReadAlike;
    FilterCorrect(l, lite, f, row);
    Postgres.KeepsBySight(l, pg, f, row);
    ReadersAgree(l, SqliteReader, PostgresReader, row);
  }

  lemma OneTells(l: Lib, lite: Engine, pg: Postgres.Engine, c: Condition, row: Row)
    requires ValidCondition(c)
    requires SightMatches(l, c, SeeRow(l, SqliteReader, row)) != SightMatches(l, c, SeeRow(l, PostgresReader, row))
    ensures Valid([c]) && Keeps(l, lite, [c], row) != Postgres.Keeps(l, pg, [c], row)
  {
    hide SightMatches, SeeRow, Keeps, Postgres.Keeps, ValidCondition;
    assert c in [c];
    BackendsBySight(l, lite, pg, [c], row);
  }

  /** A number that is neither a 64-bit integer nor the shortest decimal of a float64 equals itself in SQLite and not in
      PostgreSQL. */
  lemma BackendsDiffer(l: Lib, lite: Engine, pg: Postgres.Engine, k: string, x: real)
    requires ValidKey(k) && !IsInt64(x) && x != l.decimal(l.round(x))
    ensures var f, row := SelfTest(k, x), Store(l, map[k := Number(x)]);
      Valid(f) && Keeps(l, lite, f, row) && !Postgres.Keeps(l, pg, f, row)
  {
    hide Store, SightMatches, SeeRow, Keeps, Postgres.Keeps, SelfTest;
    SelfTestSeen(l, SqliteReader, k, x);
    SelfTestSeen(l, PostgresReader, k, x);
    BackendsBySight(l, lite, pg, SelfTest(k, x), Some(map[k := JNum(x)]));
  }

  /** 2^63 + 1 is one. */
  lemma UnsignedIntegerDiffers(l: Lib, lite: Engine, pg: Postgres.Engine, k: string)
    requires ValidKey(k) && l.round(9223372036854775809.0) == 9223372036854775808.0
    requires l.decimal(9223372036854775808.0) == 9223372036854776000.0
    ensures var f, row := SelfTest(k, 9223372036854775809.0), Store(l, map[k := Number(9223372036854775809.0)]);
      Keeps(l, lite, f, row) && !Postgres.Keeps(l, pg, f, row)
  {
    BackendsDiffer(l, lite, pg, k, 9223372036854775809.0);
  }

  // ---- the builder as the source writes it: clauses and arguments grown in loops ----

  method BuildEqualsAll(l: Lib, key: string, os: seq<Value>) returns (es: seq<Expr>, args: seq<Arg>)
    ensures BuiltAll(es, args) == EqualsAll(l, key, os)
  {
    es, args := [], [];
    for i := 0 to |os|
      invariant BuiltAll(es, args) == EqualsAll(l, key, os[..i])
    {
      assert os[..i + 1][..i] == os[..i];
      var b := Equals(l, key, os[i]);
      es, args := es + [b.expr], args + b.args;
    }
    assert os[..|os|] == os;
  }

  method BuildElementsAll(l: Lib, os: seq<Value>, head: seq<Arg>) returns (es: seq<Expr>, args: seq<Arg>)
    ensures es == ElementsAll(l, os).exprs && args == head + ElementsAll(l, os).args
  {
    es, args := [], head;
    for i := 0 to |os|
      invariant es == ElementsAll(l, os[..i]).exprs && args == head + ElementsAll(l, os[..i]).args
    {
      assert os[..i + 1][..i] == os[..i];
      var b := ElementEquals(l, os[i]);
      es, args := es + [b.expr], args + b.args;
    }
    assert os[..|os|] == os;
  }

  method BuildCondition(l: Lib, c: Condition) returns (b: Built)
    ensures b == Cond(l, c)
    decreases c, 1
  {
    match c.op {
      case Or =>
        if Alternatives(c) == [] { return ALWAYS_FALSE; }
        var es, args := BuildConditions(l, c.operand.cs);
        b := Built(OrAll(es), args);
      case Exists =>
        var want := OperandValue(c.operand);
        if !want.Bool? { return ALWAYS_FALSE; }
        b := Built(if want.b then NotNull(TYPE_OF) else IsNull(TYPE_OF), [ArgText(c.key)]);
      case Eq => b := Equals(l, c.key, OperandValue(c.operand));
      case Ne =>
        var eq := Equals(l, c.key, OperandValue(c.operand));
        b := Built(AndAll([NotNull(TYPE_OF), Not(eq.expr)]), [ArgText(c.key)] + eq.args);
      case In =>
        var os := ToSlice(c.operand);
        if os == [] { return ALWAYS_FALSE; }
        var es, args := BuildEqualsAll(l, c.key, os);
        b := Built(OrAll(es), args);
      case Any =>
        var os := ToSlice(c.operand);
        if os == [] { return ALWAYS_FALSE; }
        var es, args := BuildElementsAll(l, os, [ArgText(c.key), ArgText(c.key)]);
        b := Built(AndAll([Cmp(IsEqual, TYPE_OF, Word("array")), ExistsEach(PathOf(Ask), OrAll(es))]), args);
      case Undeclared(_) => b := ALWAYS_FALSE;
      case Gt | Gte | Lt | Lte => b := Ordered(l, c.key, OperandValue(c.operand), CmpOf(c.op));
    }
  }

  lemma CondAllStep(l: Lib, cs: seq<Condition>, i: nat)
    requires i < |cs|
    ensures var most, last := CondAll(l, cs[..i]), Cond(l, cs[i]);
      CondAll(l, cs[..i + 1]) == BuiltAll(most.exprs + [last.expr], most.args + last.args)
  {
    assert cs[..i + 1][..i] == cs[..i];
  }

  method BuildConditions(l: Lib, cs: seq<Condition>) returns (es: seq<Expr>, args: seq<Arg>)
    ensures BuiltAll(es, args) == CondAll(l, cs)
    decreases cs, 0
  {
    es, args := [], [];
    for i := 0 to |cs|
      invariant BuiltAll(es, args) == CondAll(l, cs[..i])
    {
      CondAllStep(l, cs, i);
      var b := BuildCondition(l, cs[i]);
      es, args := es + [b.expr], args + b.args;
    }
    assert cs[..|cs|] == cs;
  }

  /** buildFilterSQL. None is ErrInvalidFilterKey; otherwise there is one argument per placeholder and
      the clause keeps exactly the rows the filter rules keep. */
  method BuildFilterSql(l: Lib, f: Filter) returns (r: Option<Built>)
    ensures r.None? <==> !Valid(f)
    ensures r.Some? ==> |r.value.args| == Slots(r.value.expr)
    ensures r.Some? ==> forall eng: Engine, row: Row ::
      IsTrue(Eval(l, eng, r.value.expr, row, None, r.value.args))
      <==> forall c | c in f :: SightMatches(l, c, SeeRow(l, SqliteReader, row))
  {
    if f == [] {
      r := Some(Built(Literal(true), []));
    } else if !Valid(f) {
      return None;
    } else {
      var es, args := BuildConditions(l, f);
      r := Some(Built(AndAll(es), args));
    }
    forall eng: Engine, row: Row
      ensures |r.value.args| == Slots(r.value.expr)
      ensures IsTrue(Eval(l, eng, r.value.expr, row, None, r.value.args))
        <==> forall c | c in f :: SightMatches(l, c, SeeRow(l, SqliteReader, row))
    {
      FilterCorrect(l, eng, f, row);
    }
    FilterCorrect(l, Engine(x => true, j => ""), f, None);
  }
}
