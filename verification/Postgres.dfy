/** index/postgres/filter.go: a filter compiled to a WHERE expression with numbered binds, and the
    value PostgreSQL gives that expression under three-valued logic. */
module Postgres {
  import opened Wrappers
  import opened Order
  import opened Filters
  import opened SqlValues

  /** A float64 is bound as its shortest decimal, which is what the driver sends for a numeric. */
  datatype Bind = BindText(s: string) | BindBool(b: bool) | BindNumber(x: real)

  datatype SqlType = TextType | BooleanType | NumericType

  /** The expressions the builder writes; Param(n) is the placeholder $n. */
  datatype Expr =
    | Literal(holds: bool)
    | Word(s: string)
    | Param(n: nat)
    | Column
    | Cast(e: Expr, t: SqlType)
    | Arrow(e: Expr, key: Expr)
    | ArrowText(e: Expr, key: Expr)
    | Typeof(e: Expr)
    | JsonbExists(e: Expr, key: Expr)
    | ToJsonb(e: Expr)
    | BuildObject(key: Expr, e: Expr)
    | BuildArray(e: Expr)
    | ContainsJson(whole: Expr, part: Expr)
    | Cmp(op: CmpOp, lhs: Expr, rhs: Expr)
    | AndAll(es: seq<Expr>)
    | OrAll(es: seq<Expr>)
    | Not(e: Expr)
    | IsNull(e: Expr)
    | CoalesceFalse(e: Expr)

  /** What the engine does beyond the documented cases the builder relies on: the text ->> gives for a
      value that is not a string, and the order jsonb gives two values that are not both numbers. */
  datatype Engine = Engine(render: Json -> string, order: (Json, Json) -> int)

  // ---- SQL semantics (sections 9.1, 9.16 and 8.14.3 of the PostgreSQL documentation) ----

  function CompareSql(eng: Engine, op: CmpOp, a: Sql, b: Sql): Sql {
    match (a, b)
    case (Str(s), Str(t)) => Truth(CmpHolds(op, Compare(s, t)))
    case (Jsonb(i), Jsonb(j)) =>
      if i.JNum? && j.JNum? then Truth(CmpHolds(op, Sign(i.x - j.x)))
      else if op == IsEqual then Truth(i == j)
      else Truth(CmpHolds(op, eng.order(i, j)))
    case _ => Null
  }

  predicate JsonContains(a: Json, b: Json)
    decreases b
  {
    match b
    case JObj(m) => a.JObj? && forall k | k in m :: k in a.m && JsonContains(a.m[k], m[k])
    case JArr(es) => a.JArr? && forall i | 0 <= i < |es| :: exists x | x in a.elems :: JsonContains(x, es[i])
    case _ => a == b
  }

  function TypeName(j: Json): string {
    match j
    case JNull => "null"
    case JBool(_) => "boolean"
    case JNum(_) => "number"
    case JText(_) => "string"
    case JArr(_) => "array"
    case JObj(_) => "object"
  }

  function FromBind(b: Bind): Sql {
    match b
    case BindText(s) => Str(s)
    case BindBool(v) => Truth(v)
    case BindNumber(x) => Num(x)
  }

  function Field(v: Sql, key: Sql): Option<Json> {
    if v.Jsonb? && v.j.JObj? && key.Str? && key.s in v.j.m then Some(v.j.m[key.s]) else None
  }

  function Eval(eng: Engine, e: Expr, row: Row, ps: seq<Bind>): Sql {
    match e
    case Literal(b) => Truth(b)
    case Word(s) => Str(s)
    case Param(n) => if 1 <= n <= |ps| then FromBind(ps[n - 1]) else Null
    case Column => if row.Some? then Jsonb(JObj(row.value)) else Null
    case Cast(x, t) =>
      var v := Eval(eng, x, row, ps);
      (match t
       case TextType => if v.Str? then v else Null
       case BooleanType => if v.Truth? then v else Null
       case NumericType => if v.Num? then v else Null)
    case Arrow(x, k) =>
      var f := Field(Eval(eng, x, row, ps), Eval(eng, k, row, ps));
      if f.Some? then Jsonb(f.value) else Null
    case ArrowText(x, k) =>
      var f := Field(Eval(eng, x, row, ps), Eval(eng, k, row, ps));
      if f.None? || f.value.JNull? then Null
      else if f.value.JText? then Str(f.value.s)
      else Str(eng.render(f.value))
    case Typeof(x) =>
      var v := Eval(eng, x, row, ps);
      if v.Jsonb? then Str(TypeName(v.j)) else Null
    case JsonbExists(x, k) =>
      var v, key := Eval(eng, x, row, ps), Eval(eng, k, row, ps);
      if v.Jsonb? && key.Str? then Truth(Field(v, key).Some?) else Null
    case ToJsonb(x) =>
      (match Eval(eng, x, row, ps)
       case Truth(b) => Jsonb(JBool(b))
       case Str(s) => Jsonb(JText(s))
       case Num(n) => Jsonb(JNum(n))
       case Jsonb(j) => Jsonb(j)
       case Null => Null)
    case BuildObject(k, x) =>
      var key, v := Eval(eng, k, row, ps), Eval(eng, x, row, ps);
      if key.Str? && v.Jsonb? then Jsonb(JObj(map[key.s := v.j])) else Null
    case BuildArray(x) =>
      var v := Eval(eng, x, row, ps);
      if v.Jsonb? then Jsonb(JArr([v.j])) else Null
    case ContainsJson(a, b) =>
      var v, w := Eval(eng, a, row, ps), Eval(eng, b, row, ps);
      if v.Jsonb? && w.Jsonb? then Truth(JsonContains(v.j, w.j)) else Null
    case Cmp(op, a, b) => CompareSql(eng, op, Eval(eng, a, row, ps), Eval(eng, b, row, ps))
    case AndAll(es) => And3(seq(|es|, i requires 0 <= i < |es| => Eval(eng, es[i], row, ps)))
    case OrAll(es) => Or3(seq(|es|, i requires 0 <= i < |es| => Eval(eng, es[i], row, ps)))
    case Not(x) =>
      var v := Eval(eng, x, row, ps);
      if v.Truth? then Truth(!v.b) else Null
    case IsNull(x) => Truth(Eval(eng, x, row, ps) == Null)
    case CoalesceFalse(x) =>
      var v := Eval(eng, x, row, ps);
      if v == Null then Truth(false) else v
  }

  // ---- the builder as a function of the number of binds made before it ----

  /** An expression and the binds it appends. */
  datatype Built = Built(expr: Expr, binds: seq<Bind>)
  datatype BuiltAll = BuiltAll(exprs: seq<Expr>, binds: seq<Bind>)

  /** jsonb_typeof(dm.metadata -> $n+1) = name AND test: the guard every comparison starts with. */
  function Guarded(n: nat, name: string, test: Expr): Expr {
    AndAll([Cmp(IsEqual, Typeof(Arrow(Column, Param(n + 1))), Word(name)), test])
  }

  function TextTest(n: nat, op: CmpOp): Expr {
    Guarded(n, "string", Cmp(op, ArrowText(Column, Param(n + 2)), Param(n + 3)))
  }

  function NumberTest(n: nat, op: CmpOp): Expr {
    Guarded(n, "number", Cmp(op, Arrow(Column, Param(n + 2)), ToJsonb(Cast(Param(n + 3), NumericType))))
  }

  function BoolTest(n: nat): Expr {
    Guarded(n, "boolean", Cmp(IsEqual, Arrow(Column, Param(n + 2)), ToJsonb(Cast(Param(n + 3), BooleanType))))
  }

  function Equals(l: Lib, key: string, operand: Value, n: nat): Built {
    var k := BindText(key);
    match Norm(l, operand)
    case Bool(b) => Built(BoolTest(n), [k, k, BindBool(b)])
    case Text(s) => Built(TextTest(n, IsEqual), [k, k, BindText(s)])
    case v =>
      if Float(l, v).None? then Built(Literal(false), [])
      else Built(NumberTest(n, IsEqual), [k, k, BindNumber(l.decimal(Float(l, v).value))])
  }

  function Ordered(l: Lib, key: string, operand: Value, op: CmpOp, n: nat): Built {
    var k := BindText(key);
    match Norm(l, operand)
    case Bool(_) => Built(Literal(false), [])
    case Text(s) => Built(TextTest(n, op), [k, k, BindText(s)])
    case v =>
      if Float(l, v).None? then Built(Literal(false), [])
      else Built(NumberTest(n, op), [k, k, BindNumber(l.decimal(Float(l, v).value))])
  }

  /** The value is bound before the key, so the placeholders are not in textual order. */
  function ContainsElement(l: Lib, key: string, operand: Value, n: nat): Option<Built> {
    match Norm(l, operand)
    case Bool(b) => Some(Built(Holds(n, BooleanType), [BindBool(b), BindText(key)]))
    case Text(s) => Some(Built(Holds(n, TextType), [BindText(s), BindText(key)]))
    case v =>
      if Float(l, v).None? then None
      else Some(Built(Holds(n, NumericType), [BindNumber(l.decimal(Float(l, v).value)), BindText(key)]))
  }

  function Holds(n: nat, t: SqlType): Expr {
    CoalesceFalse(ContainsJson(Column,
      BuildObject(Cast(Param(n + 2), TextType), BuildArray(ToJsonb(Cast(Param(n + 1), t))))))
  }

  function EqualsAll(l: Lib, key: string, os: seq<Value>, n: nat): BuiltAll {
    if os == [] then BuiltAll([], [])
    else
      var most := EqualsAll(l, key, os[..|os| - 1], n);
      var last := Equals(l, key, os[|os| - 1], n + |most.binds|);
      BuiltAll(most.exprs + [last.expr], most.binds + last.binds)
  }

  function ContainsAll(l: Lib, key: string, os: seq<Value>, n: nat): BuiltAll {
    if os == [] then BuiltAll([], [])
    else
      var most := ContainsAll(l, key, os[..|os| - 1], n);
      match ContainsElement(l, key, os[|os| - 1], n + |most.binds|)
      case None => most
      case Some(last) => BuiltAll(most.exprs + [last.expr], most.binds + last.binds)
  }

  function Cond(l: Lib, c: Condition, n: nat): Built
    decreases c, 1
  {
    match c.op
    case Or =>
      if Alternatives(c) == [] then Built(Literal(false), [])
      else var all := CondAll(l, c.operand.cs, n, true); Built(OrAll(all.exprs), all.binds)
    case Exists =>
      var want := OperandValue(c.operand);
      if !want.Bool? then Built(Literal(false), [])
      else
        var has := JsonbExists(Column, Param(n + 1));
        Built(if want.b then has else OrAll([IsNull(Column), Not(has)]), [BindText(c.key)])
    case Eq => Equals(l, c.key, OperandValue(c.operand), n)
    case Ne =>
      var eq := Equals(l, c.key, OperandValue(c.operand), n + 1);
      Built(AndAll([JsonbExists(Column, Param(n + 1)), Not(eq.expr)]), [BindText(c.key)] + eq.binds)
    case In =>
      var os := ToSlice(c.operand);
      if os == [] then Built(Literal(false), [])
      else var all := EqualsAll(l, c.key, os, n); Built(OrAll(all.exprs), all.binds)
    case Any =>
      var all := ContainsAll(l, c.key, ToSlice(c.operand), n);
      if all.exprs == [] then Built(Literal(false), []) else Built(OrAll(all.exprs), all.binds)
    case Undeclared(_) => Built(Literal(false), [])
    case Gt | Gte | Lt | Lte => Ordered(l, c.key, OperandValue(c.operand), CmpOf(c.op), n)
  }

  /** guarded: every clause is wrapped in COALESCE(.., FALSE), as an alternative of an Or is. */
  function CondAll(l: Lib, cs: seq<Condition>, n: nat, guarded: bool): BuiltAll
    decreases cs, 0
  {
    if cs == [] then BuiltAll([], [])
    else
      var most := CondAll(l, cs[..|cs| - 1], n, guarded);
      var last := Cond(l, cs[|cs| - 1], n + |most.binds|);
      BuiltAll(most.exprs + [if guarded then CoalesceFalse(last.expr) else last.expr], most.binds + last.binds)
  }

  function WholeFilter(l: Lib, f: Filter, n: nat): Built {
    if f == [] then Built(Literal(true), [])
    else var all := CondAll(l, f, n, false); Built(AndAll(all.exprs), all.binds)
  }

  // ---- correctness ----

  /** ps holds b right after its first n binds. */
  predicate Window(ps: seq<Bind>, n: nat, b: seq<Bind>) {
    n + |b| <= |ps| && ps[n..n + |b|] == b
  }

  lemma SplitWindow(ps: seq<Bind>, n: nat, a: seq<Bind>, b: seq<Bind>)
    requires Window(ps, n, a + b)
    ensures Window(ps, n, a) && Window(ps, n + |a|, b)
  {
    assert ps[n..n + |a|] == (a + b)[..|a|];
    assert ps[n + |a|..n + |a| + |b|] == (a + b)[|a|..];
  }

  lemma InWindow(ps: seq<Bind>, n: nat, b: seq<Bind>)
    requires Window(ps, n, b)
    ensures forall i | 0 <= i < |b| :: ps[n + i] == b[i]
  {
    forall i | 0 <= i < |b| ensures ps[n + i] == b[i] { assert ps[n..n + |b|][i] == b[i]; }
  }

  lemma And2(v: Sql, w: Sql)
    ensures And3([v, w]) == if v == Truth(false) || w == Truth(false) then Truth(false)
                            else if IsTrue(v) && IsTrue(w) then Truth(true) else Null
  {
    assert v in [v, w] && w in [v, w];
  }

  lemma EvalAnd2(eng: Engine, a: Expr, b: Expr, row: Row, ps: seq<Bind>)
    ensures Eval(eng, AndAll([a, b]), row, ps) == And3([Eval(eng, a, row, ps), Eval(eng, b, row, ps)])
  {
    EvalConjuncts(eng, [a, b], row, ps);
    hide Eval, And3;
    assert Evals(eng, [a, b], row, ps) == [Eval(eng, a, row, ps), Eval(eng, b, row, ps)];
  }

  ghost function Evals(eng: Engine, es: seq<Expr>, row: Row, ps: seq<Bind>): (vs: seq<Sql>)
    ensures |vs| == |es| && forall i | 0 <= i < |es| :: vs[i] == Eval(eng, es[i], row, ps)
  {
    seq(|es|, i requires 0 <= i < |es| => Eval(eng, es[i], row, ps))
  }

  lemma EvalConjuncts(eng: Engine, es: seq<Expr>, row: Row, ps: seq<Bind>)
    ensures Eval(eng, AndAll(es), row, ps) == And3(Evals(eng, es, row, ps))
    ensures Eval(eng, OrAll(es), row, ps) == Or3(Evals(eng, es, row, ps))
  {
    hide And3, Or3, CompareSql, Field, JsonContains;
    assert seq(|es|, i requires 0 <= i < |es| => Eval(eng, es[i], row, ps)) == Evals(eng, es, row, ps);
  }

  lemma EvalOr2(eng: Engine, a: Expr, b: Expr, row: Row, ps: seq<Bind>)
    ensures IsTrue(Eval(eng, OrAll([a, b]), row, ps))
      <==> IsTrue(Eval(eng, a, row, ps)) || IsTrue(Eval(eng, b, row, ps))
  {
    EvalConjuncts(eng, [a, b], row, ps);
    hide Eval;
    assert Evals(eng, [a, b], row, ps) == [Eval(eng, a, row, ps), Eval(eng, b, row, ps)];
  }

  lemma EvalAll(eng: Engine, es: seq<Expr>, row: Row, ps: seq<Bind>)
    ensures IsTrue(Eval(eng, AndAll(es), row, ps)) <==> forall e | e in es :: IsTrue(Eval(eng, e, row, ps))
    ensures IsTrue(Eval(eng, OrAll(es), row, ps)) <==> exists e | e in es :: IsTrue(Eval(eng, e, row, ps))
  {
    EvalConjuncts(eng, es, row, ps);
    hide Eval;
    var vs := Evals(eng, es, row, ps);
    forall e | e in es ensures Eval(eng, e, row, ps) in vs {
      var i :| 0 <= i < |es| && es[i] == e;
      assert vs[i] == Eval(eng, e, row, ps);
    }
    forall v | v in vs ensures exists e | e in es :: Eval(eng, e, row, ps) == v {
      var i :| 0 <= i < |vs| && vs[i] == v;
      assert es[i] in es;
    }
  }

  lemma TypeNameIs(j: Json)
    ensures TypeName(j) == "string" <==> j.JText?
    ensures TypeName(j) == "number" <==> j.JNum?
    ensures TypeName(j) == "boolean" <==> j.JBool?
  {
    assert "null"[0] == 'n' && "null"[2] == 'l' && "number"[0] == 'n' && "number"[2] == 'm';
    assert "boolean"[0] == 'b' && "string"[0] == 's' && "array"[0] == 'a' && "object"[0] == 'o';
  }

  /** A failed type guard makes the whole test FALSE, whatever the guarded comparison gives. */
  lemma GuardDecides(eng: Engine, n: nat, name: string, test: Expr, key: string, row: Row, ps: seq<Bind>)
    requires n < |ps| && ps[n] == BindText(key)
    ensures var v := Eval(eng, Guarded(n, name, test), row, ps);
      match At(row, key)
      case None => !IsTrue(v)
      case Some(j) =>
        if TypeName(j) != name then v == Truth(false)
        else var t := Eval(eng, test, row, ps); t.Truth? ==> v == t
  {
    hide And3, Eval, TypeName;
    var guard := Cmp(IsEqual, Typeof(Arrow(Column, Param(n + 1))), Word(name));
    EvalGuard(eng, n, name, key, row, ps);
    EvalAnd2(eng, guard, test, row, ps);
    And2(Eval(eng, guard, row, ps), Eval(eng, test, row, ps));
  }

  lemma EvalGuard(eng: Engine, n: nat, name: string, key: string, row: Row, ps: seq<Bind>)
    requires n < |ps| && ps[n] == BindText(key)
    ensures Eval(eng, Cmp(IsEqual, Typeof(Arrow(Column, Param(n + 1))), Word(name)), row, ps)
         == if At(row, key).Some? then Truth(TypeName(At(row, key).value) == name) else Null
  {
    hide And3, Or3, JsonContains, Field, TypeName;
    var field := Arrow(Column, Param(n + 1));
    EvalField(eng, n + 1, key, row, ps);
    assert Eval(eng, Typeof(field), row, ps) == if At(row, key).Some? then Str(TypeName(At(row, key).value)) else Null;
    if At(row, key).Some? { CompareZero(TypeName(At(row, key).value), name); }
  }

  lemma EvalField(eng: Engine, k: nat, key: string, row: Row, ps: seq<Bind>)
    requires 1 <= k <= |ps| && ps[k - 1] == BindText(key)
    ensures Eval(eng, Arrow(Column, Param(k)), row, ps)
         == if At(row, key).Some? then Jsonb(At(row, key).value) else Null
    ensures At(row, key).Some? && At(row, key).value.JText? ==>
      Eval(eng, ArrowText(Column, Param(k)), row, ps) == Str(At(row, key).value.s)
    ensures Eval(eng, JsonbExists(Column, Param(k)), row, ps)
         == if row.Some? then Truth(At(row, key).Some?) else Null
  {
    assert Eval(eng, Column, row, ps) == if row.Some? then Jsonb(JObj(row.value)) else Null;
    assert Eval(eng, Param(k), row, ps) == Str(key);
  }

  lemma EvalNumber(eng: Engine, k: nat, x: real, row: Row, ps: seq<Bind>)
    requires 1 <= k <= |ps| && ps[k - 1] == BindNumber(x)
    ensures Eval(eng, ToJsonb(Cast(Param(k), NumericType)), row, ps) == Jsonb(JNum(x))
  {
    assert Eval(eng, Cast(Param(k), NumericType), row, ps) == Num(x);
  }

  lemma EvalBool(eng: Engine, k: nat, b: bool, row: Row, ps: seq<Bind>)
    requires 1 <= k <= |ps| && ps[k - 1] == BindBool(b)
    ensures Eval(eng, ToJsonb(Cast(Param(k), BooleanType)), row, ps) == Jsonb(JBool(b))
  {
    assert Eval(eng, Cast(Param(k), BooleanType), row, ps) == Truth(b);
  }

  /** The comparison behind a guard that holds. */
  lemma EvalTexts(eng: Engine, n: nat, op: CmpOp, key: string, s: string, row: Row, ps: seq<Bind>)
    requires n + 3 <= |ps| && ps[n + 1] == BindText(key) && ps[n + 2] == BindText(s)
    ensures At(row, key).Some? && At(row, key).value.JText? ==>
      Eval(eng, Cmp(op, ArrowText(Column, Param(n + 2)), Param(n + 3)), row, ps)
      == Truth(CmpHolds(op, Compare(At(row, key).value.s, s)))
  {
    hide And3, Or3, JsonContains, Field;
    EvalField(eng, n + 2, key, row, ps);
  }

  lemma EvalNumbers(eng: Engine, n: nat, op: CmpOp, key: string, x: real, row: Row, ps: seq<Bind>)
    requires n + 3 <= |ps| && ps[n + 1] == BindText(key) && ps[n + 2] == BindNumber(x)
    ensures At(row, key).Some? && At(row, key).value.JNum? ==>
      Eval(eng, Cmp(op, Arrow(Column, Param(n + 2)), ToJsonb(Cast(Param(n + 3), NumericType))), row, ps)
      == Truth(CmpHolds(op, Sign(At(row, key).value.x - x)))
  {
    hide And3, Or3, JsonContains, Field;
    EvalField(eng, n + 2, key, row, ps);
    EvalNumber(eng, n + 3, x, row, ps);
  }

  lemma EvalBools(eng: Engine, n: nat, key: string, b: bool, row: Row, ps: seq<Bind>)
    requires n + 3 <= |ps| && ps[n + 1] == BindText(key) && ps[n + 2] == BindBool(b)
    ensures At(row, key).Some? && At(row, key).value.JBool? ==>
      Eval(eng, Cmp(IsEqual, Arrow(Column, Param(n + 2)), ToJsonb(Cast(Param(n + 3), BooleanType))), row, ps)
      == Truth(At(row, key).value.b == b)
  {
    hide And3, Or3, JsonContains, Field;
    EvalField(eng, n + 2, key, row, ps);
    EvalBool(eng, n + 3, b, row, ps);
  }

  lemma TextTestCorrect(eng: Engine, n: nat, op: CmpOp, key: string, s: string, row: Row, ps: seq<Bind>)
    requires Window(ps, n, [BindText(key), BindText(key), BindText(s)])
    ensures var v := Eval(eng, TextTest(n, op), row, ps);
      match At(row, key)
      case None => !IsTrue(v)
      case Some(j) => v == Truth(j.JText? && CmpHolds(op, Compare(j.s, s)))
  {
    hide And3, Or3, JsonContains, Guarded;
    InWindow(ps, n, [BindText(key), BindText(key), BindText(s)]);
    assert ps[n + 0] == BindText(key) && ps[n + 1] == BindText(key) && ps[n + 2] == BindText(s);
    EvalTexts(eng, n, op, key, s, row, ps);
    GuardDecides(eng, n, "string", Cmp(op, ArrowText(Column, Param(n + 2)), Param(n + 3)), key, row, ps);
    hide Eval;
    if At(row, key).Some? { TypeNameIs(At(row, key).value); }
  }

  lemma NumberTestCorrect(eng: Engine, n: nat, op: CmpOp, key: string, x: real, row: Row, ps: seq<Bind>)
    requires Window(ps, n, [BindText(key), BindText(key), BindNumber(x)])
    ensures var v := Eval(eng, NumberTest(n, op), row, ps);
      match At(row, key)
      case None => !IsTrue(v)
      case Some(j) => v == Truth(j.JNum? && CmpHolds(op, Sign(j.x - x)))
  {
    hide And3, Or3, JsonContains, Guarded;
    InWindow(ps, n, [BindText(key), BindText(key), BindNumber(x)]);
    assert ps[n + 0] == BindText(key) && ps[n + 1] == BindText(key) && ps[n + 2] == BindNumber(x);
    EvalNumbers(eng, n, op, key, x, row, ps);
    GuardDecides(eng, n, "number",
      Cmp(op, Arrow(Column, Param(n + 2)), ToJsonb(Cast(Param(n + 3), NumericType))), key, row, ps);
    hide Eval;
    if At(row, key).Some? { TypeNameIs(At(row, key).value); }
  }

  lemma BoolTestCorrect(eng: Engine, n: nat, key: string, b: bool, row: Row, ps: seq<Bind>)
    requires Window(ps, n, [BindText(key), BindText(key), BindBool(b)])
    ensures var v := Eval(eng, BoolTest(n), row, ps);
      match At(row, key)
      case None => !IsTrue(v)
      case Some(j) => v == Truth(j == JBool(b))
  {
    hide And3, Or3, JsonContains, Guarded;
    InWindow(ps, n, [BindText(key), BindText(key), BindBool(b)]);
    assert ps[n + 0] == BindText(key) && ps[n + 1] == BindText(key) && ps[n + 2] == BindBool(b);
    EvalBools(eng, n, key, b, row, ps);
    GuardDecides(eng, n, "boolean",
      Cmp(IsEqual, Arrow(Column, Param(n + 2)), ToJsonb(Cast(Param(n + 3), BooleanType))), key, row, ps);
    hide Eval;
    if At(row, key).Some? { TypeNameIs(At(row, key).value); }
  }

  lemma EvalLiteral(eng: Engine, b: bool, row: Row, ps: seq<Bind>)
    ensures Eval(eng, Literal(b), row, ps) == Truth(b)
  {
  }

  /** An equality is never NULL on a document that has the key, and never TRUE on one that has not:
      what lets Ne negate it. */
  lemma EqualsCorrect(l: Lib, eng: Engine, key: string, o: Value, n: nat, row: Row, ps: seq<Bind>)
    requires Window(ps, n, Equals(l, key, o, n).binds)
    ensures var v := Eval(eng, Equals(l, key, o, n).expr, row, ps);
      match At(row, key)
      case None => !IsTrue(v)
      case Some(j) => v == Truth(SameKind(JsonKind(l, PostgresReader, j), KindOf(l, o)))
  {
    EvalLiteral(eng, false, row, ps);
    hide Eval, Window, Side;
    match Norm(l, o)
    case Bool(b) => BoolTestCorrect(eng, n, key, b, row, ps);
    case Text(s) =>
      TextTestCorrect(eng, n, IsEqual, key, s, row, ps);
      if At(row, key).Some? && At(row, key).value.JText? { CompareZero(At(row, key).value.s, s); }
    case Number(x) =>
      NumberTestCorrect(eng, n, IsEqual, key, l.decimal(l.round(x)), row, ps);
      if At(row, key).Some? && At(row, key).value.JNum? { NumberOrder(l, At(row, key).value.x, l.round(x)); }
    case _ =>
  }

  lemma OrderedCorrect(l: Lib, eng: Engine, key: string, o: Value, op: FilterOp, n: nat, row: Row, ps: seq<Bind>)
    requires op == Gt || op == Gte || op == Lt || op == Lte
    requires Window(ps, n, Ordered(l, key, o, CmpOf(op), n).binds)
    ensures IsTrue(Eval(eng, Ordered(l, key, o, CmpOf(op), n).expr, row, ps)) <==>
      At(row, key).Some?
      && var cmp := CompareKinds(JsonKind(l, PostgresReader, At(row, key).value), KindOf(l, o));
         cmp.Some? && OrderHolds(op, cmp.value)
  {
    EvalLiteral(eng, false, row, ps);
    hide Eval, Window, Side;
    match Norm(l, o)
    case Text(s) => TextTestCorrect(eng, n, CmpOf(op), key, s, row, ps);
    case Number(x) =>
      NumberTestCorrect(eng, n, CmpOf(op), key, l.decimal(l.round(x)), row, ps);
      if At(row, key).Some? && At(row, key).value.JNum? { NumberOrder(l, At(row, key).value.x, l.round(x)); }
    case _ =>
  }

  /** jsonb containment of {key: [e]} is membership of e in the array under key. */
  lemma ElementCorrect(l: Lib, eng: Engine, key: string, o: Value, n: nat, row: Row, ps: seq<Bind>)
    requires ContainsElement(l, key, o, n).Some? && Window(ps, n, ContainsElement(l, key, o, n).value.binds)
    ensures IsTrue(Eval(eng, ContainsElement(l, key, o, n).value.expr, row, ps)) <==> ElementThere(l, key, o, row)
  {
    var b := ContainsElement(l, key, o, n).value;
    InWindow(ps, n, b.binds);
    assert ps[n + 0] == b.binds[0] && ps[n + 1] == BindText(key);
    var e := match KindOf(l, o) case BoolKind(v) => JBool(v) case TextKind(s) => JText(s)
      case NumKind(x, _) => JNum(l.decimal(x)) case NoKind => JNull;
    var t := match KindOf(l, o) case BoolKind(_) => BooleanType case TextKind(_) => TextType case _ => NumericType;
    assert JsonKind(l, PostgresReader, e) == KindOf(l, o) != NoKind && b.expr == Holds(n, t);
    EvalHolds(eng, n, t, key, e, row, ps);
    if row.Some? {
      Membership(l, row.value, key, e);
    }
  }

  lemma EvalHolds(eng: Engine, n: nat, t: SqlType, key: string, e: Json, row: Row, ps: seq<Bind>)
    requires n + 2 <= |ps| && ps[n + 1] == BindText(key)
    requires match t
      case TextType => e.JText? && ps[n] == BindText(e.s)
      case BooleanType => e.JBool? && ps[n] == BindBool(e.b)
      case NumericType => e.JNum? && ps[n] == BindNumber(e.x)
    ensures IsTrue(Eval(eng, Holds(n, t), row, ps)) <==>
      row.Some? && JsonContains(JObj(row.value), JObj(map[key := JArr([e])]))
  {
    hide And3, Or3, CompareSql, Field, JsonContains;
    var element, name := ToJsonb(Cast(Param(n + 1), t)), Cast(Param(n + 2), TextType);
    EvalElement(eng, n, t, key, e, row, ps);
    EvalWanted(eng, name, element, key, e, row, ps);
    EvalContains(eng, BuildObject(name, BuildArray(element)), JObj(map[key := JArr([e])]), row, ps);
    hide Eval, JsonContains;
    Coalesced(eng, ContainsJson(Column, BuildObject(name, BuildArray(element))), row, ps);
  }

  lemma EvalWanted(eng: Engine, name: Expr, element: Expr, key: string, e: Json, row: Row, ps: seq<Bind>)
    requires Eval(eng, element, row, ps) == Jsonb(e) && Eval(eng, name, row, ps) == Str(key)
    ensures Eval(eng, BuildObject(name, BuildArray(element)), row, ps) == Jsonb(JObj(map[key := JArr([e])]))
  {
    hide And3, Or3, CompareSql, Field, JsonContains;
    assert Eval(eng, BuildArray(element), row, ps) == Jsonb(JArr([e]));
  }

  lemma EvalContains(eng: Engine, wanted: Expr, w: Json, row: Row, ps: seq<Bind>)
    requires Eval(eng, wanted, row, ps) == Jsonb(w)
    ensures Eval(eng, ContainsJson(Column, wanted), row, ps)
         == if row.Some? then Truth(JsonContains(JObj(row.value), w)) else Null
  {
    hide And3, Or3, CompareSql, Field, JsonContains;
    assert Eval(eng, Column, row, ps) == if row.Some? then Jsonb(JObj(row.value)) else Null;
  }

  lemma EvalElement(eng: Engine, n: nat, t: SqlType, key: string, e: Json, row: Row, ps: seq<Bind>)
    requires n + 2 <= |ps| && ps[n + 1] == BindText(key)
    requires match t
      case TextType => e.JText? && ps[n] == BindText(e.s)
      case BooleanType => e.JBool? && ps[n] == BindBool(e.b)
      case NumericType => e.JNum? && ps[n] == BindNumber(e.x)
    ensures Eval(eng, ToJsonb(Cast(Param(n + 1), t)), row, ps) == Jsonb(e)
    ensures Eval(eng, Cast(Param(n + 2), TextType), row, ps) == Str(key)
  {
    hide And3, Or3, CompareSql, Field, JsonContains;
    assert Eval(eng, Param(n + 1), row, ps) == FromBind(ps[n]);
    assert Eval(eng, Cast(Param(n + 1), t), row, ps) == FromBind(ps[n]);
    assert Eval(eng, Param(n + 2), row, ps) == Str(key);
  }

  lemma Membership(l: Lib, m: map<string, Json>, key: string, e: Json)
    requires JsonKind(l, PostgresReader, e) != NoKind
    requires e.JNum? ==> Side(l, PostgresReader, e.x) == 0
    ensures JsonContains(JObj(m), JObj(map[key := JArr([e])])) <==>
      key in m && JsonSight(l, PostgresReader, m[key]).elems.Some?
      && JsonKind(l, PostgresReader, e) in JsonSight(l, PostgresReader, m[key]).elems.value
  {
    var w := map[key := JArr([e])];
    assert JsonContains(JObj(m), JObj(w)) <==> key in m && JsonContains(m[key], w[key]);
    if key in m && m[key].JArr? {
      assert [e][0] == e;
      assert JsonContains(m[key], JArr([e])) <==> exists x | x in m[key].elems :: JsonContains(x, e);
      forall x: Json
        ensures JsonContains(x, e) <==> JsonKind(l, PostgresReader, x) == JsonKind(l, PostgresReader, e)
      {
      }
    }
  }

  lemma {:induction false} EqualsAllCorrect(l: Lib, eng: Engine, key: string, os: seq<Value>, n: nat, row: Row,
      ps: seq<Bind>)
    requires Window(ps, n, EqualsAll(l, key, os, n).binds)
    ensures (exists e | e in EqualsAll(l, key, os, n).exprs :: IsTrue(Eval(eng, e, row, ps)))
       <==> At(row, key).Some?
            && exists o | o in os :: SameKind(JsonKind(l, PostgresReader, At(row, key).value), KindOf(l, o))
    ensures |EqualsAll(l, key, os, n).exprs| == |os|
  {
    hide Eval, SameKind, KindOf, JsonKind, Equals;
    if os != [] {
      var most, o := EqualsAll(l, key, os[..|os| - 1], n), os[|os| - 1];
      var last := Equals(l, key, o, n + |most.binds|);
      SplitWindow(ps, n, most.binds, last.binds);
      EqualsAllCorrect(l, eng, key, os[..|os| - 1], n, row, ps);
      EqualsCorrect(l, eng, key, o, n + |most.binds|, row, ps);
      assert os == os[..|os| - 1] + [o];
    }
  }

  lemma NoElementNoKind(l: Lib, key: string, o: Value, n: nat)
    ensures ContainsElement(l, key, o, n).None? <==> KindOf(l, o) == NoKind
  {
  }

  lemma {:induction false} ContainsAllCorrect(l: Lib, eng: Engine, key: string, os: seq<Value>, n: nat, row: Row,
      ps: seq<Bind>)
    requires Window(ps, n, ContainsAll(l, key, os, n).binds)
    ensures (exists e | e in ContainsAll(l, key, os, n).exprs :: IsTrue(Eval(eng, e, row, ps)))
       <==> exists o | o in os :: ElementThere(l, key, o, row)
  {
    hide Eval, KindOf, SeeRow, ContainsElement, ElementThere;
    if os != [] {
      var most, o := ContainsAll(l, key, os[..|os| - 1], n), os[|os| - 1];
      assert os == os[..|os| - 1] + [o];
      NoElementNoKind(l, key, o, n + |most.binds|);
      match ContainsElement(l, key, o, n + |most.binds|)
      case None =>
        NoKindNotThere(l, key, o, row);
        ContainsAllCorrect(l, eng, key, os[..|os| - 1], n, row, ps);
      case Some(last) =>
        SplitWindow(ps, n, most.binds, last.binds);
        ContainsAllCorrect(l, eng, key, os[..|os| - 1], n, row, ps);
        ElementCorrect(l, eng, key, o, n + |most.binds|, row, ps);
    }
  }

  /** The document holds an array under key, and o in it. */
  predicate ElementThere(l: Lib, key: string, o: Value, row: Row) {
    key in SeeRow(l, PostgresReader, row) && SeeRow(l, PostgresReader, row)[key].elems.Some?
    && KindOf(l, o) in SeeRow(l, PostgresReader, row)[key].elems.value
  }

  lemma NoKindNotThere(l: Lib, key: string, o: Value, row: Row)
    requires KindOf(l, o) == NoKind
    ensures !ElementThere(l, key, o, row)
  {
  }

  lemma {:induction false} NoClauseNoBind(l: Lib, key: string, os: seq<Value>, n: nat)
    ensures ContainsAll(l, key, os, n).exprs == [] ==> ContainsAll(l, key, os, n).binds == []
  {
    if os != [] { NoClauseNoBind(l, key, os[..|os| - 1], n); }
  }

  /** A compiled condition is TRUE exactly where the condition matches, with any binds before and after its own. */
  lemma {:induction false} CondCorrect(l: Lib, eng: Engine, c: Condition, n: nat, row: Row, ps: seq<Bind>)
    requires Window(ps, n, Cond(l, c, n).binds)
    ensures IsTrue(Eval(eng, Cond(l, c, n).expr, row, ps)) <==> SightMatches(l, c, SeeRow(l, PostgresReader, row))
    decreases c, 1
  {
    if c.op == Or {
      if Alternatives(c) != [] {
        var all := CondAll(l, c.operand.cs, n, true);
        CondAllCorrect(l, eng, c.operand.cs, n, true, row, ps);
        ClauseByClause(l, eng, c.operand.cs, all.exprs, row, ps);
      }
    } else {
      match c.op
      case Exists => ExistsCorrect(l, eng, c, n, row, ps);
      case Ne => NeCorrect(l, eng, c, n, row, ps);
      case In | Any => MemberCorrect(l, eng, c, n, row, ps);
      case Eq => EqualsCorrect(l, eng, c.key, OperandValue(c.operand), n, row, ps);
      case Gt | Gte | Lt | Lte => OrderedCorrect(l, eng, c.key, OperandValue(c.operand), c.op, n, row, ps);
      case Undeclared(_) =>
    }
  }

  lemma ExistsCorrect(l: Lib, eng: Engine, c: Condition, n: nat, row: Row, ps: seq<Bind>)
    requires c.op == Exists && Window(ps, n, Cond(l, c, n).binds)
    ensures IsTrue(Eval(eng, Cond(l, c, n).expr, row, ps)) <==> SightMatches(l, c, SeeRow(l, PostgresReader, row))
  {
    if OperandValue(c.operand).Bool? {
      InWindow(ps, n, [BindText(c.key)]);
      assert ps[n + 0] == BindText(c.key);
      EvalField(eng, n + 1, c.key, row, ps);
      var has := JsonbExists(Column, Param(n + 1));
      EvalMissing(eng, has, row, ps);
      EvalOr2(eng, IsNull(Column), Not(has), row, ps);
      hide Eval;
    }
  }

  lemma EvalMissing(eng: Engine, has: Expr, row: Row, ps: seq<Bind>)
    ensures Eval(eng, IsNull(Column), row, ps) == Truth(row.None?)
    ensures Eval(eng, Not(has), row, ps) == match Eval(eng, has, row, ps) case Truth(b) => Truth(!b) case _ => Null
  {
    hide And3, Or3, CompareSql, Field, JsonContains;
    assert Eval(eng, Column, row, ps) == if row.Some? then Jsonb(JObj(row.value)) else Null;
  }

  lemma MemberCorrect(l: Lib, eng: Engine, c: Condition, n: nat, row: Row, ps: seq<Bind>)
    requires (c.op == In || c.op == Any) && Window(ps, n, Cond(l, c, n).binds)
    ensures IsTrue(Eval(eng, Cond(l, c, n).expr, row, ps)) <==> SightMatches(l, c, SeeRow(l, PostgresReader, row))
  {
    hide Equals, EqualsAll, ContainsAll, Window, KindOf;
    var os := ToSlice(c.operand);
    if c.op == Any {
      NoClauseNoBind(l, c.key, os, n);
      assert Window(ps, n, ContainsAll(l, c.key, os, n).binds);
      ContainsAllCorrect(l, eng, c.key, os, n, row, ps);
      EvalAll(eng, ContainsAll(l, c.key, os, n).exprs, row, ps);
    } else if os != [] {
      EqualsAllCorrect(l, eng, c.key, os, n, row, ps);
      EvalAll(eng, EqualsAll(l, c.key, os, n).exprs, row, ps);
    }
  }

  lemma NeCorrect(l: Lib, eng: Engine, c: Condition, n: nat, row: Row, ps: seq<Bind>)
    requires c.op == Ne && Window(ps, n, Cond(l, c, n).binds)
    ensures IsTrue(Eval(eng, Cond(l, c, n).expr, row, ps)) <==> SightMatches(l, c, SeeRow(l, PostgresReader, row))
  {
    hide Equals, JsonContains, And3, Or3, CompareSql;
    var eq := Equals(l, c.key, OperandValue(c.operand), n + 1);
    SplitWindow(ps, n, [BindText(c.key)], eq.binds);
    InWindow(ps, n, [BindText(c.key)]);
    assert ps[n + 0] == BindText(c.key);
    EqualsCorrect(l, eng, c.key, OperandValue(c.operand), n + 1, row, ps);
    EvalField(eng, n + 1, c.key, row, ps);
    var has, differs := JsonbExists(Column, Param(n + 1)), Not(eq.expr);
    EvalAnd2(eng, has, differs, row, ps);
    And2(Eval(eng, has, row, ps), Eval(eng, differs, row, ps));
    EvalMissing(eng, eq.expr, row, ps);
    hide Eval, SameKind, KindOf, JsonKind;
  }

  lemma {:induction false} CondAllCorrect(l: Lib, eng: Engine, cs: seq<Condition>, n: nat, guarded: bool, row: Row,
      ps: seq<Bind>)
    requires Window(ps, n, CondAll(l, cs, n, guarded).binds)
    ensures Agree(l, eng, CondAll(l, cs, n, guarded).exprs, cs, row, ps)
    decreases cs, 0
  {
    hide Eval, SightMatches, Cond, SeeRow;
    if cs != [] {
      var init, c := cs[..|cs| - 1], cs[|cs| - 1];
      var most := CondAll(l, init, n, guarded);
      var last := Cond(l, c, n + |most.binds|);
      SplitWindow(ps, n, most.binds, last.binds);
      CondAllCorrect(l, eng, init, n, guarded, row, ps);
      CondCorrect(l, eng, c, n + |most.binds|, row, ps);
      Coalesced(eng, last.expr, row, ps);
      AgreeOneMore(l, eng, most.exprs, init, if guarded then CoalesceFalse(last.expr) else last.expr, c, row, ps);
      assert cs == init + [c];
    }
  }

  /** Clause by clause, TRUE where the condition matches. */
  predicate Agree(l: Lib, eng: Engine, es: seq<Expr>, cs: seq<Condition>, row: Row, ps: seq<Bind>) {
    |es| == |cs| && forall i | 0 <= i < |cs| ::
      IsTrue(Eval(eng, es[i], row, ps)) <==> SightMatches(l, cs[i], SeeRow(l, PostgresReader, row))
  }

  lemma Coalesced(eng: Engine, e: Expr, row: Row, ps: seq<Bind>)
    ensures IsTrue(Eval(eng, CoalesceFalse(e), row, ps)) <==> IsTrue(Eval(eng, e, row, ps))
  {
  }

  lemma {:induction false} AgreeOneMore(l: Lib, eng: Engine, es: seq<Expr>, cs: seq<Condition>, e: Expr,
      c: Condition, row: Row, ps: seq<Bind>)
    requires Agree(l, eng, es, cs, row, ps)
    requires IsTrue(Eval(eng, e, row, ps)) <==> SightMatches(l, c, SeeRow(l, PostgresReader, row))
    ensures Agree(l, eng, es + [e], cs + [c], row, ps)
  {
    hide Eval, SightMatches, SeeRow;
  }

  lemma ClauseByClause(l: Lib, eng: Engine, cs: seq<Condition>, es: seq<Expr>, row: Row, ps: seq<Bind>)
    requires Agree(l, eng, es, cs, row, ps)
    ensures IsTrue(Eval(eng, AndAll(es), row, ps))
      <==> forall c | c in cs :: SightMatches(l, c, SeeRow(l, PostgresReader, row))
    ensures IsTrue(Eval(eng, OrAll(es), row, ps))
      <==> exists c | c in cs :: SightMatches(l, c, SeeRow(l, PostgresReader, row))
  {
    EvalAll(eng, es, row, ps);
    Pointwise(es, cs, e => IsTrue(Eval(eng, e, row, ps)), c => SightMatches(l, c, SeeRow(l, PostgresReader, row)));
  }

  /** The compiled filter keeps a row exactly when the filter rules do; binds made before it and
      binds made after it change nothing. */
  lemma FilterCorrect(l: Lib, eng: Engine, f: Filter, before: seq<Bind>, later: seq<Bind>, row: Row)
    ensures var b := WholeFilter(l, f, |before|);
      IsTrue(Eval(eng, b.expr, row, before + b.binds + later))
      <==> forall c | c in f :: SightMatches(l, c, SeeRow(l, PostgresReader, row))
  {
    var b := WholeFilter(l, f, |before|);
    var ps := before + b.binds + later;
    assert ps[|before|..|before| + |b.binds|] == b.binds;
    if f != [] {
      CondAllCorrect(l, eng, f, |before|, false, row, ps);
      ClauseByClause(l, eng, f, CondAll(l, f, |before|, false).exprs, row, ps);
    }
  }

  /** The document is selected by the pushed-down query. */
  predicate Keeps(l: Lib, eng: Engine, f: Filter, row: Row) {
    var b := WholeFilter(l, f, 0);
    IsTrue(Eval(eng, b.expr, row, b.binds))
  }

  lemma KeepsBySight(l: Lib, eng: Engine, f: Filter, row: Row)
    ensures Keeps(l, eng, f, row) <==> forall c | c in f :: SightMatches(l, c, SeeRow(l, PostgresReader, row))
  {
    FilterCorrect(l, eng, f, [], [], row);
    assert [] + WholeFilter(l, f, 0).binds + [] == WholeFilter(l, f, 0).binds;
  }

  /** Pushing a valid filter down to PostgreSQL selects the documents Filter.Matches selects over the stored metadata,
      a document without a row included, exactly when each stored number is the shortest decimal of a float64. */
  lemma PushDownPreservesMeaning(l: Lib, eng: Engine, meta: Metadata)
    ensures (forall f | Valid(f) :: Keeps(l, eng, f, Store(l, meta)) <==> Matches(l, f, Load(l, Store(l, meta))))
       <==> Exact(l, PostgresReader, Store(l, meta))
  {
    hide Keeps, Matches, Exact, Store, Load;
    SqlSeesWhatGoSees(l, PostgresReader, meta);
    var row, back := Store(l, meta), Load(l, Store(l, meta));
    if Exact(l, PostgresReader, row) {
      forall f | Valid(f) ensures Keeps(l, eng, f, row) <==> Matches(l, f, back) { KeepsAlike(l, eng, f, row, back); }
    } else {
      var c :| ValidCondition(c) && SightMatches(l, c, SeeRow(l, PostgresReader, row)) != ConditionMatches(l, c, back);
      KeepsApart(l, eng, c, row, back);
    }
  }

  lemma KeepsAlike(l: Lib, eng: Engine, f: Filter, row: Row, meta: Metadata)
    requires Valid(f)
    requires forall c | ValidCondition(c) ::
      SightMatches(l, c, SeeRow(l, PostgresReader, row)) <==> ConditionMatches(l, c, meta)
    ensures Keeps(l, eng, f, row) <==> Matches(l, f, meta)
  {
    hide SightMatches, SeeRow, Keeps, ConditionMatches, ValidCondition;
    KeepsBySight(l, eng, f, row);
  }

  lemma KeepsApart(l: Lib, eng: Engine, c: Condition, row: Row, meta: Metadata)
    requires ValidCondition(c) && SightMatches(l, c, SeeRow(l, PostgresReader, row)) != ConditionMatches(l, c, meta)
    ensures Valid([c]) && Keeps(l, eng, [c], row) != Matches(l, [c], meta)
  {
    hide SightMatches, SeeRow, Keeps, ConditionMatches, ValidCondition;
    assert c in [c];
    KeepsBySight(l, eng, [c], row);
  }

  /** A number that is no shortest decimal of a float64 equals itself in Go and not in PostgreSQL. */
  lemma GoAndPostgresDiffer(l: Lib, eng: Engine, k: string, x: real)
    requires ValidKey(k) && x != l.decimal(l.round(x))
    ensures var meta, f := map[k := Number(x)], SelfTest(k, x);
      Valid(f) && Matches(l, f, Load(l, Store(l, meta))) && !Keeps(l, eng, f, Store(l, meta))
  {
    hide Matches, Load, Store, SightMatches, SeeRow, Keeps, SelfTest;
    SelfTestSeen(l, PostgresReader, k, x);
    SelfTestInGo(l, k, x);
    KeepsBySight(l, eng, SelfTest(k, x), Some(map[k := JNum(x)]));
  }

  /** 2^53 + 1 is one. */
  lemma FirstLostInteger(l: Lib, eng: Engine, k: string)
    requires ValidKey(k) && l.round(9007199254740993.0) == l.decimal(9007199254740992.0) == 9007199254740992.0
    ensures var meta, f := map[k := Number(9007199254740993.0)], SelfTest(k, 9007199254740993.0);
      Matches(l, f, Load(l, Store(l, meta))) && !Keeps(l, eng, f, Store(l, meta))
  {
    GoAndPostgresDiffer(l, eng, k, 9007199254740993.0);
  }

  // ---- the builder as the source writes it: one mutable accumulator ----

  class Args {
    var values: seq<Bind>

    constructor ()
      ensures values == []
    {
      values := [];
    }

    method Bind(v: Bind) returns (p: Expr)
      modifies this
      ensures values == old(values) + [v]
      ensures p == Param(|values|)
    {
      values := values + [v];
      p := Param(|values|);
    }
  }

  method BuildGuarded(key: string, name: string, op: CmpOp, asText: bool, v: Bind, t: SqlType, a: Args)
    returns (e: Expr)
    modifies a
    ensures a.values == old(a.values) + [BindText(key), BindText(key), v]
    ensures var n := |old(a.values)|;
      e == Guarded(n, name,
        if asText then Cmp(op, ArrowText(Column, Param(n + 2)), Param(n + 3))
        else Cmp(op, Arrow(Column, Param(n + 2)), ToJsonb(Cast(Param(n + 3), t))))
  {
    var p := a.Bind(BindText(key));
    var q := a.Bind(BindText(key));
    var r := a.Bind(v);
    e := AndAll([Cmp(IsEqual, Typeof(Arrow(Column, p)), Word(name)),
                 if asText then Cmp(op, ArrowText(Column, q), r) else Cmp(op, Arrow(Column, q), ToJsonb(Cast(r, t)))]);
  }

  method BuildEquals(l: Lib, key: string, operand: Value, a: Args) returns (e: Expr)
    modifies a
    ensures e == Equals(l, key, operand, |old(a.values)|).expr
    ensures a.values == old(a.values) + Equals(l, key, operand, |old(a.values)|).binds
  {
    match Norm(l, operand) {
      case Bool(b) => e := BuildGuarded(key, "boolean", IsEqual, false, BindBool(b), BooleanType, a);
      case Text(s) => e := BuildGuarded(key, "string", IsEqual, true, BindText(s), TextType, a);
      case Number(x) =>
        e := BuildGuarded(key, "number", IsEqual, false, BindNumber(l.decimal(l.round(x))), NumericType, a);
      case _ => e := Literal(false);
    }
  }

  method BuildOrdered(l: Lib, key: string, operand: Value, op: CmpOp, a: Args) returns (e: Expr)
    modifies a
    ensures e == Ordered(l, key, operand, op, |old(a.values)|).expr
    ensures a.values == old(a.values) + Ordered(l, key, operand, op, |old(a.values)|).binds
  {
    match Norm(l, operand) {
      case Text(s) => e := BuildGuarded(key, "string", op, true, BindText(s), TextType, a);
      case Number(x) => e := BuildGuarded(key, "number", op, false, BindNumber(l.decimal(l.round(x))), NumericType, a);
      case _ => e := Literal(false);
    }
  }

  method BuildContains(l: Lib, key: string, operand: Value, a: Args) returns (e: Option<Expr>)
    modifies a
    ensures match ContainsElement(l, key, operand, |old(a.values)|)
      case None => e == None && a.values == old(a.values)
      case Some(b) => e == Some(b.expr) && a.values == old(a.values) + b.binds
  {
    var p, t;
    match Norm(l, operand) {
      case Bool(b) => p := a.Bind(BindBool(b)); t := BooleanType;
      case Text(s) => p := a.Bind(BindText(s)); t := TextType;
      case Number(x) => p := a.Bind(BindNumber(l.decimal(l.round(x)))); t := NumericType;
      case _ => return None;
    }
    var k := a.Bind(BindText(key));
    e := Some(CoalesceFalse(ContainsJson(Column, BuildObject(Cast(k, TextType), BuildArray(ToJsonb(Cast(p, t)))))));
  }

  method BuildEqualsAll(l: Lib, key: string, os: seq<Value>, a: Args) returns (es: seq<Expr>)
    modifies a
    ensures es == EqualsAll(l, key, os, |old(a.values)|).exprs
    ensures a.values == old(a.values) + EqualsAll(l, key, os, |old(a.values)|).binds
  {
    hide Equals;
    ghost var before, n, built := a.values, |a.values|, BuiltAll([], []);
    es := [];
    for i := 0 to |os|
      invariant built == EqualsAll(l, key, os[..i], n)
      invariant es == built.exprs && a.values == before + built.binds
    {
      assert os[..i + 1][..i] == os[..i];
      var e := BuildEquals(l, key, os[i], a);
      built := EqualsAll(l, key, os[..i + 1], n);
      es := es + [e];
    }
    assert os[..|os|] == os;
  }

  method BuildContainsAll(l: Lib, key: string, os: seq<Value>, a: Args) returns (es: seq<Expr>)
    modifies a
    ensures es == ContainsAll(l, key, os, |old(a.values)|).exprs
    ensures a.values == old(a.values) + ContainsAll(l, key, os, |old(a.values)|).binds
  {
    hide ContainsElement;
    ghost var before, n, built := a.values, |a.values|, BuiltAll([], []);
    es := [];
    for i := 0 to |os|
      invariant built == ContainsAll(l, key, os[..i], n)
      invariant es == built.exprs && a.values == before + built.binds
    {
      assert os[..i + 1][..i] == os[..i];
      var e := BuildContains(l, key, os[i], a);
      built := ContainsAll(l, key, os[..i + 1], n);
      if e.Some? { es := es + [e.value]; }
    }
    assert os[..|os|] == os;
  }

  lemma CondAllStep(l: Lib, cs: seq<Condition>, i: nat, n: nat, guarded: bool)
    requires i < |cs|
    ensures var most := CondAll(l, cs[..i], n, guarded);
      var last := Cond(l, cs[i], n + |most.binds|);
      CondAll(l, cs[..i + 1], n, guarded)
      == BuiltAll(most.exprs + [if guarded then CoalesceFalse(last.expr) else last.expr], most.binds + last.binds)
  {
    assert cs[..i + 1][..i] == cs[..i];
  }

  method BuildCondition(l: Lib, c: Condition, a: Args) returns (e: Expr)
    modifies a
    ensures e == Cond(l, c, |old(a.values)|).expr
    ensures a.values == old(a.values) + Cond(l, c, |old(a.values)|).binds
    decreases c, 1
  {
    hide Equals, Ordered, EqualsAll, ContainsAll, Norm;
    match c.op {
      case Or =>
        if Alternatives(c) == [] { return Literal(false); }
        var es := BuildConditions(l, c.operand.cs, true, a);
        e := OrAll(es);
      case Exists =>
        var want := OperandValue(c.operand);
        if !want.Bool? { return Literal(false); }
        var p := a.Bind(BindText(c.key));
        e := if want.b then JsonbExists(Column, p) else OrAll([IsNull(Column), Not(JsonbExists(Column, p))]);
      case Eq => e := BuildEquals(l, c.key, OperandValue(c.operand), a);
      case Ne =>
        var p := a.Bind(BindText(c.key));
        var eq := BuildEquals(l, c.key, OperandValue(c.operand), a);
        e := AndAll([JsonbExists(Column, p), Not(eq)]);
      case In =>
        var os := ToSlice(c.operand);
        if os == [] { return Literal(false); }
        var es := BuildEqualsAll(l, c.key, os, a);
        e := OrAll(es);
      case Any =>
        NoClauseNoBind(l, c.key, ToSlice(c.operand), |a.values|);
        var es := BuildContainsAll(l, c.key, ToSlice(c.operand), a);
        e := if es == [] then Literal(false) else OrAll(es);
      case Undeclared(_) => e := Literal(false);
      case Gt | Gte | Lt | Lte => e := BuildOrdered(l, c.key, OperandValue(c.operand), CmpOf(c.op), a);
    }
  }

  method BuildConditions(l: Lib, cs: seq<Condition>, guarded: bool, a: Args) returns (es: seq<Expr>)
    modifies a
    ensures es == CondAll(l, cs, |old(a.values)|, guarded).exprs
    ensures a.values == old(a.values) + CondAll(l, cs, |old(a.values)|, guarded).binds
    decreases cs, 0
  {
    hide Cond, Alternatives;
    ghost var before, n := a.values, |a.values|;
    ghost var built := BuiltAll([], []);
    es := [];
    for i := 0 to |cs|
      invariant built == CondAll(l, cs[..i], n, guarded)
      invariant es == built.exprs && a.values == before + built.binds
    {
      CondAllStep(l, cs, i, n, guarded);
      var e := BuildCondition(l, cs[i], a);
      built := CondAll(l, cs[..i + 1], n, guarded);
      es := es + [if guarded then CoalesceFalse(e) else e];
    }
    assert cs[..|cs|] == cs;
  }

  /** buildFilterSQL. None is ErrInvalidFilterKey; otherwise the expression keeps exactly the rows the
      filter rules keep, whatever is bound after it. */
  method BuildFilterSql(l: Lib, f: Filter, a: Args) returns (r: Option<Expr>)
    modifies a
    ensures r.None? <==> !Valid(f)
    ensures r.None? ==> a.values == old(a.values)
    ensures r.Some? ==> old(a.values) <= a.values
    ensures r.Some? ==> forall eng: Engine, row: Row, later: seq<Bind> ::
      IsTrue(Eval(eng, r.value, row, a.values + later))
      <==> forall c | c in f :: SightMatches(l, c, SeeRow(l, PostgresReader, row))
  {
    ghost var before := a.values;
    ghost var whole := WholeFilter(l, f, |before|);
    if f == [] {
      r := Some(Literal(true));
      assert before + whole.binds == before;
    } else if !Valid(f) {
      return None;
    } else {
      var es := BuildConditions(l, f, false, a);
      r := Some(AndAll(es));
    }
    forall eng: Engine, row: Row, later: seq<Bind>
      ensures IsTrue(Eval(eng, r.value, row, a.values + later))
        <==> forall c | c in f :: SightMatches(l, c, SeeRow(l, PostgresReader, row))
    {
      FilterCorrect(l, eng, f, before, later, row);
    }
  }
}
