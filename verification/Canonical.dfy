/** index/filter.go: the canonical encoding of a filter, which identifies the filter a pagination
    cursor was issued for. */
module Canonical {
  import opened Wrappers
  import opened Order
  import opened Filters

  /** strconv.Quote's spelling of one character, strconv.FormatFloat and fmt's %#v. */
  datatype Printer = Printer(lib: Lib, escape: char -> string, formatFloat: real -> string, goSyntax: Value -> string)

  predicate NumChar(c: char) {
    '0' <= c <= '9' || 'a' <= c <= 'z' || 'A' <= c <= 'Z' || c == '+' || c == '-' || c == '.'
  }

  /** Escapes are prefix-free and never start with the closing quote; a float64 has its own spelling. */
  ghost predicate LawfulPrinter(p: Printer) {
    && (forall c :: p.escape(c) != "" && p.escape(c)[0] != '"')
    && (forall c, d :: p.escape(c) <= p.escape(d) ==> c == d)
    && (forall x, c | c in p.formatFloat(x) :: NumChar(c))
    && (forall x, y :: p.formatFloat(p.lib.round(x)) == p.formatFloat(p.lib.round(y)) ==>
        p.lib.round(x) == p.lib.round(y))
  }

  ghost function SomePrinter(): (p: Printer)
    ensures LawfulPrinter(p)
  {
    var p := Printer(Library(s => None, t => "", x => 0.0, x => 0.0, d => ""), c => ['\\', c], x => "0", v => "");
    assert forall c, d | p.escape(c) <= p.escape(d) :: c == d by {
      forall c, d | p.escape(c) <= p.escape(d) ensures c == d { assert p.escape(c)[1] == p.escape(d)[1]; }
    }
    p
  }

  type Print = p: Printer | LawfulPrinter(p) ghost witness SomePrinter()

  function Escaped(p: Print, s: string): string {
    if s == "" then "" else p.escape(s[0]) + Escaped(p, s[1..])
  }

  /** strconv.Quote */
  function Quote(p: Print, s: string): string { "\"" + Escaped(p, s) + "\"" }

  /** strings.Join */
  function Join(xs: seq<string>, sep: char): string {
    if xs == [] then "" else if |xs| == 1 then xs[0] else xs[0] + [sep] + Join(xs[1..], sep)
  }

  function CanonicalScalar(p: Print, value: Value): string {
    var v := Norm(p.lib, value);
    if v.Number? then "n" + p.formatFloat(p.lib.round(v.x))
    else if v.Text? then "s" + Quote(p, v.s)
    else if v.Bool? then "b" + (if v.b then "true" else "false")
    else if v.Nil? then "z"
    else "?" + Quote(p, p.goSyntax(v))
  }

  function Scalars(p: Print, vs: seq<Value>): (ts: seq<string>)
    ensures |ts| == |vs| && forall i | 0 <= i < |vs| :: ts[i] == CanonicalScalar(p, vs[i])
  {
    seq(|vs|, i requires 0 <= i < |vs| => CanonicalScalar(p, vs[i]))
  }

  function CanonicalOperand(p: Print, op: FilterOp, o: Operand): string {
    if op != In && op != Any then CanonicalScalar(p, OperandValue(o))
    else "[" + Join(Sort(TextLe, Scalars(p, ToSlice(o))), ',') + "]"
  }

  function OpName(op: FilterOp): string {
    match op
    case Eq => "eq"
    case Ne => "ne"
    case Gt => "gt"
    case Gte => "gte"
    case Lt => "lt"
    case Lte => "lte"
    case In => "in"
    case Any => "any"
    case Exists => "exists"
    case Or => "or"
    case Undeclared(name) => name
  }

  const OR_HEAD := "\0or\0["

  /** Condition.canonical */
  function CanonicalCondition(p: Print, c: Condition): string
    decreases c, 1
  {
    if c.op == Or then
      OR_HEAD + Join(Sort(TextLe, if c.operand.Conditions? then Quoted(p, c.operand.cs) else []), ',') + "]"
    else Quote(p, c.key) + "\0" + OpName(c.op) + "\0" + CanonicalOperand(p, c.op, c.operand)
  }

  function Quoted(p: Print, cs: seq<Condition>): (qs: seq<string>)
    ensures |qs| == |cs| && forall i | 0 <= i < |cs| :: qs[i] == Quote(p, CanonicalCondition(p, cs[i]))
    decreases cs, 0
  {
    seq(|cs|, i requires 0 <= i < |cs| => Quote(p, CanonicalCondition(p, cs[i])))
  }

  function Encodings(p: Print, f: Filter): (es: seq<string>)
    ensures |es| == |f| && forall i | 0 <= i < |f| :: es[i] == CanonicalCondition(p, f[i])
  {
    seq(|f|, i requires 0 <= i < |f| => CanonicalCondition(p, f[i]))
  }

  /** Filter.CanonicalBytes; None is nil. */
  function CanonicalBytes(p: Print, f: Filter): Option<string> {
    if f == [] then None else Some(Join(Sort(TextLe, Encodings(p, f)), '\n'))
  }

  // ---- unique decoding ----

  predicate Declared(name: string) {
    name in {"eq", "ne", "gt", "gte", "lt", "lte", "in", "any", "exists", "or"}
  }

  /** The operator is one of the ten declared ones, or another name free of the NUL separator. */
  predicate PlainOps(c: Condition) {
    (c.op.Undeclared? ==> '\0' !in c.op.name && !Declared(c.op.name))
    && (c.op == Or ==> forall s | s in Alternatives(c) :: PlainOps(s))
  }

  /** What may follow an encoded part. */
  predicate Stop(x: string) { x == "" || x[0] == ',' || x[0] == ']' || x[0] == '\n' }

  predicate End(x: string) { x == "" || x[0] == ']' }

  lemma Uncons(a: string, b: string, x: string, y: string)
    requires a + x == b + y && |a| == |b|
    ensures a == b && x == y
  {
    assert a == (a + x)[..|a|] == (b + y)[..|b|] == b;
    assert x == (a + x)[|a|..] == (b + y)[|b|..] == y;
  }

  /** Two texts over one alphabet, each followed by something outside it. */
  lemma {:induction false} Span(p: char -> bool, a: string, b: string, x: string, y: string)
    requires a + x == b + y
    requires (forall c | c in a :: p(c)) && (forall c | c in b :: p(c))
    requires (x == "" || !p(x[0])) && (y == "" || !p(y[0]))
    ensures a == b && x == y
  {
    SpanStart(p, a, x);
    SpanStart(p, b, y);
    if a != "" && b != "" {
      assert (a + x)[1..] == a[1..] + x && (b + y)[1..] == b[1..] + y;
      Span(p, a[1..], b[1..], x, y);
      assert a == [(a + x)[0]] + a[1..] && b == [(b + y)[0]] + b[1..];
    } else {
      assert a + x == x && b + y == y;
    }
  }

  lemma SpanStart(p: char -> bool, a: string, x: string)
    requires (forall c | c in a :: p(c)) && (x == "" || !p(x[0]))
    ensures a != "" <==> a + x != "" && p((a + x)[0])
  {
    if a != "" { assert a[0] in a; } else { assert a + x == x; }
  }

  lemma {:induction false} EscapedSplit(p: Print, s: string, t: string, x: string, y: string)
    requires Escaped(p, s) + "\"" + x == Escaped(p, t) + "\"" + y
    ensures s == t && x == y
  {
    var a, b := Escaped(p, s) + "\"" + x, Escaped(p, t) + "\"" + y;
    if s == "" || t == "" {
      EscapedStart(p, s, x);
      EscapedStart(p, t, y);
      assert x == a[1..] == b[1..] == y;
    } else {
      var u, v := p.escape(s[0]), p.escape(t[0]);
      var r, q := Escaped(p, s[1..]) + "\"" + x, Escaped(p, t[1..]) + "\"" + y;
      assert a == u + r && b == v + q;
      EscapeSplit(p, s[0], t[0], r, q);
      EscapedSplit(p, s[1..], t[1..], x, y);
      assert s == [s[0]] + s[1..] && t == [t[0]] + t[1..];
    }
  }

  lemma EscapedStart(p: Print, s: string, x: string)
    ensures s == "" <==> (Escaped(p, s) + "\"" + x)[0] == '"'
    ensures s == "" ==> (Escaped(p, s) + "\"" + x)[1..] == x
  {
    if s != "" { assert (Escaped(p, s) + "\"" + x)[0] == p.escape(s[0])[0]; }
  }

  lemma EscapeSplit(p: Print, c: char, d: char, r: string, q: string)
    requires p.escape(c) + r == p.escape(d) + q
    ensures c == d && r == q
  {
    var u, v := p.escape(c), p.escape(d);
    var whole := u + r;
    assert u == whole[..|u|] && v == whole[..|v|];
    assert u <= v || v <= u;
    Uncons(u, v, r, q);
  }

  /** A quoted text shows where it ends. */
  lemma QuoteSplit(p: Print, s: string, t: string, x: string, y: string)
    requires Quote(p, s) + x == Quote(p, t) + y
    ensures s == t && x == y
  {
    assert (Quote(p, s) + x)[1..] == Escaped(p, s) + "\"" + x;
    assert (Quote(p, t) + y)[1..] == Escaped(p, t) + "\"" + y;
    EscapedSplit(p, s, t, x, y);
  }

  lemma NumberChars(p: Print, x: real)
    ensures forall c | c in p.formatFloat(x) :: NumChar(c)
  {
  }

  lemma NumberSplit(p: Print, v: Value, w: Value, x: string, y: string)
    requires CanonicalScalar(p, v) + x == CanonicalScalar(p, w) + y && Stop(x) && Stop(y)
    requires Norm(p.lib, v).Number? && Norm(p.lib, w).Number?
    ensures CanonicalScalar(p, v) == CanonicalScalar(p, w) && x == y && KindOf(p.lib, v) == KindOf(p.lib, w)
  {
    hide Norm;
    var a, b := CanonicalScalar(p, v), CanonicalScalar(p, w);
    var n, m := p.lib.round(Norm(p.lib, v).x), p.lib.round(Norm(p.lib, w).x);
    assert a[1..] == p.formatFloat(n) && b[1..] == p.formatFloat(m);
    assert (a + x)[1..] == a[1..] + x && (b + y)[1..] == b[1..] + y;
    NumberChars(p, n);
    NumberChars(p, m);
    Span(NumChar, a[1..], b[1..], x, y);
  }

  lemma BoolSplit(p: Print, v: Value, w: Value, x: string, y: string)
    requires CanonicalScalar(p, v) + x == CanonicalScalar(p, w) + y
    requires Norm(p.lib, v).Bool? && Norm(p.lib, w).Bool?
    ensures CanonicalScalar(p, v) == CanonicalScalar(p, w) && x == y && KindOf(p.lib, v) == KindOf(p.lib, w)
  {
    hide Norm;
    var a, b := CanonicalScalar(p, v), CanonicalScalar(p, w);
    assert (a + x)[1] == a[1] && (b + y)[1] == b[1];
    assert "true"[0] != "false"[0];
    Uncons(a, b, x, y);
  }

  lemma TextSplit(p: Print, v: Value, w: Value, x: string, y: string)
    requires CanonicalScalar(p, v) + x == CanonicalScalar(p, w) + y
    requires Norm(p.lib, v).Text? && Norm(p.lib, w).Text?
    ensures CanonicalScalar(p, v) == CanonicalScalar(p, w) && x == y && KindOf(p.lib, v) == KindOf(p.lib, w)
  {
    hide Norm, Quote;
    TaggedQuoteSplit(p, "s", Norm(p.lib, v).s, Norm(p.lib, w).s, x, y);
  }

  /** Neither operand compares with anything. */
  predicate Incomparable(v: Value) { !v.Number? && !v.Text? && !v.Bool? && !v.Nil? }

  lemma OtherSplit(p: Print, v: Value, w: Value, x: string, y: string)
    requires CanonicalScalar(p, v) + x == CanonicalScalar(p, w) + y
    requires Incomparable(Norm(p.lib, v)) && Incomparable(Norm(p.lib, w))
    ensures CanonicalScalar(p, v) == CanonicalScalar(p, w) && x == y && KindOf(p.lib, v) == KindOf(p.lib, w)
  {
    hide Norm, Quote;
    TaggedQuoteSplit(p, "?", p.goSyntax(Norm(p.lib, v)), p.goSyntax(Norm(p.lib, w)), x, y);
  }

  lemma TaggedQuoteSplit(p: Print, tag: string, s: string, t: string, x: string, y: string)
    requires |tag| == 1 && tag + Quote(p, s) + x == tag + Quote(p, t) + y
    ensures s == t && x == y
  {
    hide Quote;
    assert (tag + Quote(p, s) + x)[1..] == Quote(p, s) + x && (tag + Quote(p, t) + y)[1..] == Quote(p, t) + y;
    QuoteSplit(p, s, t, x, y);
  }

  /** The first byte of an encoded operand tells its kind. */
  lemma ScalarTag(p: Print, v: Value, w: Value, x: string, y: string)
    requires CanonicalScalar(p, v) + x == CanonicalScalar(p, w) + y
    ensures CanonicalScalar(p, v)[0] == CanonicalScalar(p, w)[0]
  {
    hide Norm;
    var a, b := CanonicalScalar(p, v), CanonicalScalar(p, w);
    assert a[0] == (a + x)[0] == (b + y)[0] == b[0];
  }

  /** An encoded operand shows where it ends, and operands encoded alike compare alike. */
  lemma ScalarSplit(p: Print, v: Value, w: Value, x: string, y: string)
    requires CanonicalScalar(p, v) + x == CanonicalScalar(p, w) + y && Stop(x) && Stop(y)
    ensures CanonicalScalar(p, v) == CanonicalScalar(p, w) && x == y
    ensures KindOf(p.lib, v) == KindOf(p.lib, w)
  {
    hide Norm, Quote, Escaped;
    ScalarTag(p, v, w, x, y);
    match Norm(p.lib, v)
    case Number(_) => NumberSplit(p, v, w, x, y);
    case Text(_) => TextSplit(p, v, w, x, y);
    case Bool(_) => BoolSplit(p, v, w, x, y);
    case Nil => Uncons(CanonicalScalar(p, v), CanonicalScalar(p, w), x, y);
    case _ => OtherSplit(p, v, w, x, y);
  }

  /** Whatever may follow, u and v are told apart. */
  ghost predicate Apart(u: string, v: string) {
    forall x, y {:trigger u + x, v + y} :: u + x == v + y && Stop(x) && Stop(y) ==> u == v
  }

  predicate Opens(u: string) { u != "" && u[0] != ']' }

  /** A joined list shows its elements. */
  lemma {:induction false} JoinSplit(us: seq<string>, vs: seq<string>, sep: char, x: string, y: string)
    requires sep == ',' || sep == '\n'
    requires forall u, v | u in us && v in vs :: Apart(u, v)
    requires (forall u | u in us :: Opens(u)) && (forall v | v in vs :: Opens(v))
    requires Join(us, sep) + x == Join(vs, sep) + y && End(x) && End(y)
    ensures us == vs && x == y
  {
    if us == [] || vs == [] {
      NoElement(us, sep, x);
      NoElement(vs, sep, y);
    } else {
      var r := AfterFirst(us, sep, x);
      var q := AfterFirst(vs, sep, y);
      assert us[0] in us && vs[0] in vs;
      assert Apart(us[0], vs[0]);
      assert us[0] + r == vs[0] + q;
      Uncons(us[0], vs[0], r, q);
      if |us| > 1 && |vs| > 1 {
        assert r[1..] == Join(us[1..], sep) + x && q[1..] == Join(vs[1..], sep) + y;
        JoinSplit(us[1..], vs[1..], sep, x, y);
      }
      assert us == [us[0]] + us[1..] && vs == [vs[0]] + vs[1..];
    }
  }

  /** An empty list is the one whose text starts as what follows it does. */
  lemma NoElement(us: seq<string>, sep: char, x: string)
    requires (forall u | u in us :: Opens(u)) && End(x)
    ensures us == [] <==> End(Join(us, sep) + x)
    ensures us == [] ==> Join(us, sep) + x == x
  {
    if us != [] {
      assert us[0] in us;
      assert Opens(us[0]);
      assert (Join(us, sep) + x)[0] == us[0][0];
    }
  }

  /** The text after the first element of a joined list. */
  lemma AfterFirst(us: seq<string>, sep: char, x: string) returns (r: string)
    requires us != [] && End(x) && (sep == ',' || sep == '\n')
    ensures Join(us, sep) + x == us[0] + r && Stop(r)
    ensures |us| == 1 ==> r == x
    ensures |us| > 1 ==> r == [sep] + (Join(us[1..], sep) + x)
  {
    r := if |us| == 1 then x else [sep] + (Join(us[1..], sep) + x);
  }

  lemma {:induction false} ScalarsApart(p: Print, us: seq<string>, vs: seq<string>, a: seq<Value>, b: seq<Value>)
    requires multiset(us) == multiset(Scalars(p, a)) && multiset(vs) == multiset(Scalars(p, b))
    ensures forall u, v | u in us && v in vs :: Apart(u, v)
    ensures (forall u | u in us :: Opens(u)) && (forall v | v in vs :: Opens(v))
  {
    forall u | u in us ensures Opens(u) && exists i :: 0 <= i < |a| && u == CanonicalScalar(p, a[i]) {
      assert u in multiset(us);
      assert u in Scalars(p, a);
    }
    forall v | v in vs ensures Opens(v) && exists i :: 0 <= i < |b| && v == CanonicalScalar(p, b[i]) {
      assert v in multiset(vs);
      assert v in Scalars(p, b);
    }
    forall u, v | u in us && v in vs ensures Apart(u, v) {
      var i :| 0 <= i < |a| && u == CanonicalScalar(p, a[i]);
      var j :| 0 <= j < |b| && v == CanonicalScalar(p, b[j]);
      forall x, y | u + x == v + y && Stop(x) && Stop(y) ensures u == v { ScalarSplit(p, a[i], b[j], x, y); }
    }
  }

  /** The encoded operand sets of two In or Any conditions. */
  lemma ListSplit(p: Print, a: seq<Value>, b: seq<Value>, x: string, y: string)
    requires Stop(x) && Stop(y)
    requires "[" + Join(Sort(TextLe, Scalars(p, a)), ',') + "]" + x
      == "[" + Join(Sort(TextLe, Scalars(p, b)), ',') + "]" + y
    ensures x == y && multiset(Scalars(p, a)) == multiset(Scalars(p, b))
    ensures Sort(TextLe, Scalars(p, a)) == Sort(TextLe, Scalars(p, b))
  {
    TextOrder();
    var us, vs := Sort(TextLe, Scalars(p, a)), Sort(TextLe, Scalars(p, b));
    SortCorrect(TextLe, Scalars(p, a));
    SortCorrect(TextLe, Scalars(p, b));
    ScalarsApart(p, us, vs, a, b);
    Behead("[", Join(us, ','), x);
    Behead("[", Join(vs, ','), y);
    JoinSplit(us, vs, ',', "]" + x, "]" + y);
    assert x == ("]" + x)[1..] && y == ("]" + y)[1..];
  }

  lemma QuotedApart(p: Print, us: seq<string>, vs: seq<string>, a: seq<Condition>, b: seq<Condition>)
    requires multiset(us) == multiset(Quoted(p, a)) && multiset(vs) == multiset(Quoted(p, b))
    ensures forall u, v | u in us && v in vs :: Apart(u, v)
    ensures (forall u | u in us :: Opens(u)) && (forall v | v in vs :: Opens(v))
  {
    forall u | u in us ensures Opens(u) && exists i :: 0 <= i < |a| && u == Quote(p, CanonicalCondition(p, a[i])) {
      assert u in multiset(us);
      assert u in Quoted(p, a);
    }
    forall v | v in vs ensures Opens(v) && exists i :: 0 <= i < |b| && v == Quote(p, CanonicalCondition(p, b[i])) {
      assert v in multiset(vs);
      assert v in Quoted(p, b);
    }
    forall u, v | u in us && v in vs ensures Apart(u, v) {
      var i :| 0 <= i < |a| && u == Quote(p, CanonicalCondition(p, a[i]));
      var j :| 0 <= j < |b| && v == Quote(p, CanonicalCondition(p, b[j]));
      forall x, y | u + x == v + y && Stop(x) && Stop(y) ensures u == v {
        QuoteSplit(p, CanonicalCondition(p, a[i]), CanonicalCondition(p, b[j]), x, y);
      }
    }
  }

  lemma OrSplit(p: Print, a: seq<Condition>, b: seq<Condition>, x: string, y: string)
    requires Stop(x) && Stop(y)
    requires OR_HEAD + Join(Sort(TextLe, Quoted(p, a)), ',') + "]" + x
      == OR_HEAD + Join(Sort(TextLe, Quoted(p, b)), ',') + "]" + y
    ensures x == y && multiset(Quoted(p, a)) == multiset(Quoted(p, b))
    ensures Sort(TextLe, Quoted(p, a)) == Sort(TextLe, Quoted(p, b))
  {
    TextOrder();
    var us, vs := Sort(TextLe, Quoted(p, a)), Sort(TextLe, Quoted(p, b));
    SortCorrect(TextLe, Quoted(p, a));
    SortCorrect(TextLe, Quoted(p, b));
    QuotedApart(p, us, vs, a, b);
    Behead(OR_HEAD, Join(us, ','), x);
    Behead(OR_HEAD, Join(vs, ','), y);
    JoinSplit(us, vs, ',', "]" + x, "]" + y);
    assert x == ("]" + x)[1..] && y == ("]" + y)[1..];
  }

  lemma Behead(head: string, list: string, x: string)
    ensures (head + list + "]" + x)[|head|..] == list + ("]" + x)
  {
  }

  function OpOf(name: string): FilterOp {
    if name == "eq" then Eq
    else if name == "ne" then Ne
    else if name == "gt" then Gt
    else if name == "gte" then Gte
    else if name == "lt" then Lt
    else if name == "lte" then Lte
    else if name == "in" then In
    else if name == "any" then Any
    else if name == "exists" then Exists
    else if name == "or" then Or
    else Undeclared(name)
  }

  lemma OpNameReads(op: FilterOp)
    requires op.Undeclared? ==> !Declared(op.name)
    ensures OpOf(OpName(op)) == op
  {
    assert "eq"[0] == 'e' && "eq"[1] == 'q' && "ne"[0] == 'n' && "gt"[0] == 'g' && |"gte"| == 3 && "gte"[0] == 'g';
    assert "lt"[0] == 'l' && |"lte"| == 3 && "lte"[0] == 'l' && "in"[0] == 'i' && "any"[0] == 'a';
    assert "exists"[0] == 'e' && "exists"[1] == 'x' && "or"[0] == 'o';
  }

  lemma OpNamePlain(op: FilterOp)
    requires op.Undeclared? ==> '\0' !in op.name
    ensures '\0' !in OpName(op)
  {
  }

  /** The parts of two simple conditions whose encodings start alike. */
  lemma SimpleSplit(p: Print, c: Condition, d: Condition, x: string, y: string)
    requires c.op != Or && d.op != Or && PlainOps(c) && PlainOps(d) && Stop(x) && Stop(y)
    requires CanonicalCondition(p, c) + x == CanonicalCondition(p, d) + y
    ensures c.key == d.key && c.op == d.op
    ensures CanonicalOperand(p, c.op, c.operand) + x == CanonicalOperand(p, d.op, d.operand) + y
  {
    var s, t := CanonicalOperand(p, c.op, c.operand), CanonicalOperand(p, d.op, d.operand);
    var m, n := OpName(c.op), OpName(d.op);
    Regroup(Quote(p, c.key), m, s, x);
    Regroup(Quote(p, d.key), n, t, y);
    QuoteSplit(p, c.key, d.key, "\0" + (m + ("\0" + (s + x))), "\0" + (n + ("\0" + (t + y))));
    assert ("\0" + (m + ("\0" + (s + x))))[1..] == m + ("\0" + (s + x));
    assert ("\0" + (n + ("\0" + (t + y))))[1..] == n + ("\0" + (t + y));
    OpNamePlain(c.op);
    OpNamePlain(d.op);
    Span(ch => ch != '\0', m, n, "\0" + (s + x), "\0" + (t + y));
    assert s + x == ("\0" + (s + x))[1..] && t + y == ("\0" + (t + y))[1..];
    OpNameReads(c.op);
    OpNameReads(d.op);
  }

  lemma Regroup(q: string, m: string, s: string, x: string)
    ensures q + "\0" + m + "\0" + s + x == q + ("\0" + (m + ("\0" + (s + x))))
  {
  }

  lemma FirstCharOf(p: Print, c: Condition)
    ensures CanonicalCondition(p, c) != ""
    ensures CanonicalCondition(p, c)[0] == if c.op == Or then '\0' else '"'
  {
  }

  /** An encoded condition shows where it ends. */
  lemma ConditionSplit(p: Print, c: Condition, d: Condition, x: string, y: string)
    requires PlainOps(c) && PlainOps(d) && Stop(x) && Stop(y)
    requires CanonicalCondition(p, c) + x == CanonicalCondition(p, d) + y
    ensures CanonicalCondition(p, c) == CanonicalCondition(p, d)
    ensures (c.op == Or) == (d.op == Or)
  {
    FirstCharOf(p, c);
    FirstCharOf(p, d);
    assert (CanonicalCondition(p, c) + x)[0] == (CanonicalCondition(p, d) + y)[0];
    if c.op == Or {
      assert Quoted(p, []) == [];
      OrSplit(p, Alternatives(c), Alternatives(d), x, y);
    } else {
      SimpleSplit(p, c, d, x, y);
      if c.op == In || c.op == Any {
        ListSplit(p, ToSlice(c.operand), ToSlice(d.operand), x, y);
      } else {
        ScalarSplit(p, OperandValue(c.operand), OperandValue(d.operand), x, y);
      }
    }
  }

  // ---- soundness: equal encodings, equal verdicts ----

  /** Two bags of encodings: every element of one list has a counterpart in the other. */
  lemma Counterpart<T>(xs: seq<string>, ys: seq<string>, i: nat) returns (j: nat)
    requires multiset(xs) == multiset(ys) && i < |xs|
    ensures j < |ys| && ys[j] == xs[i]
  {
    assert xs[i] in multiset(ys);
    j :| 0 <= j < |ys| && ys[j] == xs[i];
  }

  lemma SameOperandKinds(p: Print, a: seq<Value>, b: seq<Value>)
    requires multiset(Scalars(p, a)) == multiset(Scalars(p, b))
    ensures SameKinds(p.lib, a, b)
  {
    forall o | o in a ensures exists q | q in b :: KindOf(p.lib, o) == KindOf(p.lib, q) {
      var i :| 0 <= i < |a| && a[i] == o;
      var j := Counterpart<string>(Scalars(p, a), Scalars(p, b), i);
      ScalarSplit(p, a[i], b[j], "", "");
      assert b[j] in b;
    }
  }

  lemma SameSimpleVerdict(p: Print, c: Condition, d: Condition, seen: map<string, Sight>)
    requires PlainOps(c) && PlainOps(d) && c.op != Or && d.op != Or
    requires CanonicalCondition(p, c) == CanonicalCondition(p, d)
    ensures SightMatches(p.lib, c, seen) <==> SightMatches(p.lib, d, seen)
  {
    assert CanonicalCondition(p, c) + "" == CanonicalCondition(p, d) + "";
    SimpleSplit(p, c, d, "", "");
    if c.op == In || c.op == Any {
      SameListVerdict(p, c, d, seen);
    } else {
      ScalarSplit(p, OperandValue(c.operand), OperandValue(d.operand), "", "");
      SameKindVerdict(p.lib, c, d, seen);
    }
  }

  lemma SameKindVerdict(l: Lib, c: Condition, d: Condition, seen: map<string, Sight>)
    requires c.key == d.key && c.op == d.op && c.op != Or && c.op != In && c.op != Any
    requires KindOf(l, OperandValue(c.operand)) == KindOf(l, OperandValue(d.operand))
    ensures SightMatches(l, c, seen) <==> SightMatches(l, d, seen)
  {
  }

  lemma SameListVerdict(p: Print, c: Condition, d: Condition, seen: map<string, Sight>)
    requires c.key == d.key && c.op == d.op && (c.op == In || c.op == Any)
    requires CanonicalOperand(p, c.op, c.operand) + "" == CanonicalOperand(p, d.op, d.operand) + ""
    ensures SightMatches(p.lib, c, seen) <==> SightMatches(p.lib, d, seen)
  {
    SameLists(p, ToSlice(c.operand), ToSlice(d.operand));
    SameMembersVerdict(p.lib, c, d, seen);
  }

  lemma SameLists(p: Print, a: seq<Value>, b: seq<Value>)
    requires "[" + Join(Sort(TextLe, Scalars(p, a)), ',') + "]" + ""
      == "[" + Join(Sort(TextLe, Scalars(p, b)), ',') + "]" + ""
    ensures SameKinds(p.lib, a, b) && SameKinds(p.lib, b, a)
  {
    ListSplit(p, a, b, "", "");
    SameOperandKinds(p, a, b);
    SameOperandKinds(p, b, a);
  }

  predicate SameKinds(l: Lib, a: seq<Value>, b: seq<Value>) {
    forall o | o in a :: exists q | q in b :: KindOf(l, o) == KindOf(l, q)
  }

  lemma SameMembersVerdict(l: Lib, c: Condition, d: Condition, seen: map<string, Sight>)
    requires c.key == d.key && c.op == d.op && (c.op == In || c.op == Any)
    requires SameKinds(l, ToSlice(c.operand), ToSlice(d.operand))
    requires SameKinds(l, ToSlice(d.operand), ToSlice(c.operand))
    ensures SightMatches(l, c, seen) <==> SightMatches(l, d, seen)
  {
    if c.key in seen { SameListHolds(l, c, d, seen[c.key]); }
  }

  lemma SameListHolds(l: Lib, c: Condition, d: Condition, sight: Sight)
    requires c.op == d.op && (c.op == In || c.op == Any)
    requires SameKinds(l, ToSlice(c.operand), ToSlice(d.operand))
    requires SameKinds(l, ToSlice(d.operand), ToSlice(c.operand))
    ensures SightHolds(l, c, sight) <==> SightHolds(l, d, sight)
  {
    hide KindOf, SameKind, SameKinds;
    SameMembers(l, ToSlice(c.operand), ToSlice(d.operand), sight);
  }

  lemma SameMembers(l: Lib, a: seq<Value>, b: seq<Value>, sight: Sight)
    requires SameKinds(l, a, b) && SameKinds(l, b, a)
    ensures (exists o | o in a :: SameKind(sight.kind, KindOf(l, o)))
      <==> exists o | o in b :: SameKind(sight.kind, KindOf(l, o))
    ensures sight.elems.Some? ==>
      ((exists o | o in a :: KindOf(l, o) in sight.elems.value)
        <==> exists o | o in b :: KindOf(l, o) in sight.elems.value)
  {
    hide KindOf, SameKind, SameKinds;
    KindsCarry(l, a, b, k => SameKind(sight.kind, k));
    KindsCarry(l, b, a, k => SameKind(sight.kind, k));
    if sight.elems.Some? {
      KindsCarry(l, a, b, k => k in sight.elems.value);
      KindsCarry(l, b, a, k => k in sight.elems.value);
    }
  }

  lemma KindsCarry(l: Lib, a: seq<Value>, b: seq<Value>, p: Kind -> bool)
    requires SameKinds(l, a, b)
    ensures (exists o | o in a :: p(KindOf(l, o))) ==> exists o | o in b :: p(KindOf(l, o))
  {
    hide KindOf;
    if o :| o in a && p(KindOf(l, o)) {
      var q :| q in b && KindOf(l, o) == KindOf(l, q);
    }
  }

  /** Conditions encoded alike give every document the same verdict. */
  lemma {:induction false} SameVerdict(p: Print, c: Condition, d: Condition, seen: map<string, Sight>)
    requires PlainOps(c) && PlainOps(d) && CanonicalCondition(p, c) == CanonicalCondition(p, d)
    ensures SightMatches(p.lib, c, seen) <==> SightMatches(p.lib, d, seen)
    decreases c
  {
    assert CanonicalCondition(p, c) + "" == CanonicalCondition(p, d) + "";
    ConditionSplit(p, c, d, "", "");
    if c.op != Or {
      SameSimpleVerdict(p, c, d, seen);
    } else {
      var a, b := Alternatives(c), Alternatives(d);
      SameBags(p, c, d);
      forall i | 0 <= i < |a|
        ensures exists s | s in b :: SightMatches(p.lib, a[i], seen) <==> SightMatches(p.lib, s, seen)
      {
        var j := SameAlternative(p, a, b, i);
        assert a[i] in a && b[j] in b;
        SameVerdict(p, a[i], b[j], seen);
      }
      forall i | 0 <= i < |b|
        ensures exists s | s in a :: SightMatches(p.lib, b[i], seen) <==> SightMatches(p.lib, s, seen)
      {
        var j := SameAlternative(p, b, a, i);
        assert a[j] in a && b[i] in b;
        SameVerdict(p, a[j], b[i], seen);
      }
    }
  }

  lemma SameBags(p: Print, c: Condition, d: Condition)
    requires c.op == Or && d.op == Or && CanonicalCondition(p, c) == CanonicalCondition(p, d)
    ensures multiset(Quoted(p, Alternatives(c))) == multiset(Quoted(p, Alternatives(d)))
  {
    assert Quoted(p, []) == [];
    OrSplit(p, Alternatives(c), Alternatives(d), "", "");
  }

  lemma SameAlternative(p: Print, a: seq<Condition>, b: seq<Condition>, i: nat) returns (j: nat)
    requires multiset(Quoted(p, a)) == multiset(Quoted(p, b)) && i < |a|
    ensures j < |b| && CanonicalCondition(p, a[i]) == CanonicalCondition(p, b[j])
  {
    j := Counterpart<string>(Quoted(p, a), Quoted(p, b), i);
    QuoteSplit(p, CanonicalCondition(p, a[i]), CanonicalCondition(p, b[j]), "", "");
  }

  predicate PlainFilter(f: Filter) { forall c | c in f :: PlainOps(c) }

  lemma EncodingsApart(p: Print, us: seq<string>, vs: seq<string>, f: Filter, g: Filter)
    requires PlainFilter(f) && PlainFilter(g)
    requires multiset(us) == multiset(Encodings(p, f)) && multiset(vs) == multiset(Encodings(p, g))
    ensures forall u, v | u in us && v in vs :: Apart(u, v)
    ensures (forall u | u in us :: Opens(u)) && (forall v | v in vs :: Opens(v))
  {
    forall u | u in us ensures Opens(u) && exists i :: 0 <= i < |f| && u == CanonicalCondition(p, f[i]) {
      assert u in multiset(us);
      var i :| 0 <= i < |f| && u == Encodings(p, f)[i];
      FirstCharOf(p, f[i]);
    }
    forall v | v in vs ensures Opens(v) && exists i :: 0 <= i < |g| && v == CanonicalCondition(p, g[i]) {
      assert v in multiset(vs);
      var i :| 0 <= i < |g| && v == Encodings(p, g)[i];
      FirstCharOf(p, g[i]);
    }
    forall u, v | u in us && v in vs ensures Apart(u, v) {
      var i :| 0 <= i < |f| && u == CanonicalCondition(p, f[i]);
      var j :| 0 <= j < |g| && v == CanonicalCondition(p, g[j]);
      forall x, y | u + x == v + y && Stop(x) && Stop(y) ensures u == v { ConditionSplit(p, f[i], g[j], x, y); }
    }
  }

  lemma SameEncodings(p: Print, f: Filter, g: Filter)
    requires PlainFilter(f) && PlainFilter(g) && f != [] && g != [] && CanonicalBytes(p, f) == CanonicalBytes(p, g)
    ensures multiset(Encodings(p, f)) == multiset(Encodings(p, g))
  {
    TextOrder();
    var us, vs := Sort(TextLe, Encodings(p, f)), Sort(TextLe, Encodings(p, g));
    SortCorrect(TextLe, Encodings(p, f));
    SortCorrect(TextLe, Encodings(p, g));
    EncodingsApart(p, us, vs, f, g);
    assert Join(us, '\n') + "" == Join(us, '\n') && Join(vs, '\n') + "" == Join(vs, '\n');
    JoinSplit(us, vs, '\n', "", "");
  }

  /** Two filters with equal canonical bytes select exactly the same documents. */
  lemma EncodingSound(p: Print, f: Filter, g: Filter, meta: Metadata)
    requires PlainFilter(f) && PlainFilter(g) && CanonicalBytes(p, f) == CanonicalBytes(p, g)
    ensures Matches(p.lib, f, meta) <==> Matches(p.lib, g, meta)
  {
    if f != [] {
      SameEncodings(p, f, g);
      if Matches(p.lib, g, meta) { Covered(p, f, g, meta); }
      if Matches(p.lib, f, meta) { Covered(p, g, f, meta); }
    }
  }

  lemma Covered(p: Print, f: Filter, g: Filter, meta: Metadata)
    requires PlainFilter(f) && PlainFilter(g) && multiset(Encodings(p, f)) == multiset(Encodings(p, g))
    requires Matches(p.lib, g, meta)
    ensures Matches(p.lib, f, meta)
  {
    forall c | c in f ensures ConditionMatches(p.lib, c, meta) {
      var i :| 0 <= i < |f| && f[i] == c;
      var j := Counterpart<string>(Encodings(p, f), Encodings(p, g), i);
      assert g[j] in g;
      SameVerdict(p, c, g[j], See(p.lib, meta));
      MatchesBySight(p.lib, c, meta);
      MatchesBySight(p.lib, g[j], meta);
    }
  }

  /** The operator is written unquoted: one condition whose undeclared operator holds the separators has
      the encoding of two conditions it does not select the documents of. */
  lemma UndeclaredOperatorForges(p: Print)
    requires p.lib.parseTime("x").None?
    ensures exists f: Filter, g: Filter, meta: Metadata ::
      CanonicalBytes(p, f) == CanonicalBytes(p, g) && Matches(p.lib, f, meta) && !Matches(p.lib, g, meta)
  {
    var x := Plain(Text("x"));
    var c := Condition("a", Eq, x);
    var forged := Condition("a", Undeclared(ForgedName(p, x)), x);
    var meta := map["a" := Text("x")];
    ForgedBytes(p, x);
    EqualByKind(p.lib, Text("x"), Text("x"));
    assert KindOf(p.lib, Text("x")) == TextKind("x");
    assert ConditionMatches(p.lib, c, meta);
    assert Matches(p.lib, [c, c], meta);
    assert forged in [forged] && !ConditionMatches(p.lib, forged, meta);
    assert !Matches(p.lib, [forged], meta);
  }

  function ForgedName(p: Print, x: Operand): string {
    "eq\0" + CanonicalOperand(p, Eq, x) + "\n" + Quote(p, "a") + "\0eq"
  }

  lemma ForgedBytes(p: Print, x: Operand)
    ensures var c, forged := Condition("a", Eq, x), Condition("a", Undeclared(ForgedName(p, x)), x);
      CanonicalBytes(p, [c, c]) == CanonicalBytes(p, [forged])
  {
    var c, forged := Condition("a", Eq, x), Condition("a", Undeclared(ForgedName(p, x)), x);
    var e, g := CanonicalCondition(p, c), CanonicalCondition(p, forged);
    TextOrder();
    assert Encodings(p, [c, c]) == [e, e] && Encodings(p, [forged]) == [g];
    CompareZero(e, e);
    SortIdempotent(TextLe, [e, e]);
    SortIdempotent(TextLe, [g]);
    assert Join([e, e], '\n') == e + "\n" + e by { assert [e, e][1..] == [e]; }
    Glue(Quote(p, "a"), CanonicalOperand(p, Eq, x), ForgedName(p, x), e);
  }

  lemma Glue(q: string, o: string, name: string, e: string)
    requires name == "eq\0" + o + "\n" + q + "\0eq" && e == q + "\0" + "eq" + "\0" + o
    ensures q + "\0" + name + "\0" + o == e + "\n" + e
  {
    assert "eq\0" == "eq" + "\0" && "\0eq" == "\0" + "eq";
  }

  // ---- the order of conditions, alternatives and operands leaves no trace ----

  /** Operands that read alike: an int and the float it equals, one instant in two time zones; operands no comparison
      accepts only when Go spells them alike. */
  predicate Alike(p: Print, v: Value, w: Value) {
    KindOf(p.lib, v) == KindOf(p.lib, w) && (KindOf(p.lib, v) == NoKind ==> Spelling(p, v) == Spelling(p, w))
  }

  /** None is nil. */
  function Spelling(p: Print, v: Value): Option<string> {
    if Norm(p.lib, v).Nil? then None else Some(p.goSyntax(Norm(p.lib, v)))
  }

  ghost predicate AlikeBags(p: Print, vs: seq<Value>, ws: seq<Value>) {
    if vs == [] then ws == []
    else exists j :: 0 <= j < |ws| && Alike(p, vs[0], ws[j]) && AlikeBags(p, vs[1..], ws[..j] + ws[j + 1..])
  }

  /** d is c with its alternatives, or its In or Any operands, in any order and alike. */
  ghost predicate Rearranged(p: Print, c: Condition, d: Condition)
    decreases c, 1
  {
    c.op == d.op &&
    if c.op == Or then
      if c.operand.Conditions? then RearrangedBags(p, c.operand.cs, Alternatives(d)) else Alternatives(d) == []
    else
      c.key == d.key
      && if c.op == In || c.op == Any then AlikeBags(p, ToSlice(c.operand), ToSlice(d.operand))
         else Alike(p, OperandValue(c.operand), OperandValue(d.operand))
  }

  ghost predicate RearrangedBags(p: Print, cs: seq<Condition>, ds: seq<Condition>)
    decreases cs, 0
  {
    if cs == [] then ds == []
    else exists j :: 0 <= j < |ds| && Rearranged(p, cs[0], ds[j]) && RearrangedBags(p, cs[1..], ds[..j] + ds[j + 1..])
  }

  /** Operands are encoded alike exactly when they read alike. */
  lemma AlikeScalars(p: Print, v: Value, w: Value)
    ensures CanonicalScalar(p, v) == CanonicalScalar(p, w) <==> Alike(p, v, w)
  {
    hide Quote, Escaped;
    if CanonicalScalar(p, v) == CanonicalScalar(p, w) {
      assert CanonicalScalar(p, v) + "" == CanonicalScalar(p, w) + "";
      ScalarSplit(p, v, w, "", "");
      ScalarTag(p, v, w, "", "");
      if Incomparable(Norm(p.lib, v)) && Incomparable(Norm(p.lib, w)) { SameSpelling(p, v, w); }
    }
  }

  lemma SameSpelling(p: Print, v: Value, w: Value)
    requires Incomparable(Norm(p.lib, v)) && Incomparable(Norm(p.lib, w))
    requires CanonicalScalar(p, v) == CanonicalScalar(p, w)
    ensures p.goSyntax(Norm(p.lib, v)) == p.goSyntax(Norm(p.lib, w))
  {
    hide Norm, Quote;
    TaggedQuoteSplit(p, "?", p.goSyntax(Norm(p.lib, v)), p.goSyntax(Norm(p.lib, w)), "", "");
  }

  lemma {:induction false} AlikeOperands(p: Print, vs: seq<Value>, ws: seq<Value>)
    requires AlikeBags(p, vs, ws)
    ensures multiset(Scalars(p, vs)) == multiset(Scalars(p, ws))
  {
    hide CanonicalScalar, Scalars, Alike;
    if vs != [] {
      var j :| 0 <= j < |ws| && Alike(p, vs[0], ws[j]) && AlikeBags(p, vs[1..], ws[..j] + ws[j + 1..]);
      AlikeScalars(p, vs[0], ws[j]);
      AlikeOperands(p, vs[1..], ws[..j] + ws[j + 1..]);
      ScalarsAgree(p, vs, ws, j);
    }
  }

  lemma ScalarsAgree(p: Print, vs: seq<Value>, ws: seq<Value>, j: nat)
    requires vs != [] && j < |ws| && CanonicalScalar(p, vs[0]) == CanonicalScalar(p, ws[j])
    requires multiset(Scalars(p, vs[1..])) == multiset(Scalars(p, ws[..j] + ws[j + 1..]))
    ensures multiset(Scalars(p, vs)) == multiset(Scalars(p, ws))
  {
    hide CanonicalScalar, Scalars;
    ScalarsCut(p, vs, 0);
    ScalarsCut(p, ws, j);
    assert vs[..0] + vs[0 + 1..] == vs[1..];
  }

  lemma ScalarsCut(p: Print, vs: seq<Value>, j: nat)
    requires j < |vs|
    ensures multiset(Scalars(p, vs))
      == multiset{CanonicalScalar(p, vs[j])} + multiset(Scalars(p, vs[..j] + vs[j + 1..]))
  {
    var b := Scalars(p, vs);
    TakeOut(b, j);
    assert b[..j] + b[j + 1..] == Scalars(p, vs[..j] + vs[j + 1..]);
  }

  lemma {:induction false} RearrangedSame(p: Print, c: Condition, d: Condition)
    requires Rearranged(p, c, d)
    ensures CanonicalCondition(p, c) == CanonicalCondition(p, d)
    decreases c, 1
  {
    TextOrder();
    if c.op == Or {
      if c.operand.Conditions? {
        RearrangedQuotes(p, c.operand.cs, Alternatives(d));
        SortForgetsOrder(TextLe, Quoted(p, c.operand.cs), Quoted(p, Alternatives(d)));
        assert Quoted(p, []) == [];
      } else {
        assert Quoted(p, []) == [];
      }
    } else if c.op == In || c.op == Any {
      AlikeOperands(p, ToSlice(c.operand), ToSlice(d.operand));
      SortForgetsOrder(TextLe, Scalars(p, ToSlice(c.operand)), Scalars(p, ToSlice(d.operand)));
    } else {
      AlikeScalars(p, OperandValue(c.operand), OperandValue(d.operand));
    }
  }

  lemma {:induction false} RearrangedQuotes(p: Print, cs: seq<Condition>, ds: seq<Condition>)
    requires RearrangedBags(p, cs, ds)
    ensures multiset(Quoted(p, cs)) == multiset(Quoted(p, ds))
    ensures multiset(Encodings(p, cs)) == multiset(Encodings(p, ds))
    decreases cs, 0
  {
    hide CanonicalCondition, Quoted, Encodings, Quote;
    if cs != [] {
      var j :| 0 <= j < |ds| && Rearranged(p, cs[0], ds[j]) && RearrangedBags(p, cs[1..], ds[..j] + ds[j + 1..]);
      RearrangedSame(p, cs[0], ds[j]);
      RearrangedQuotes(p, cs[1..], ds[..j] + ds[j + 1..]);
      QuotesAgree(p, cs, ds, j);
    }
  }

  lemma QuotesAgree(p: Print, cs: seq<Condition>, ds: seq<Condition>, j: nat)
    requires cs != [] && j < |ds| && CanonicalCondition(p, cs[0]) == CanonicalCondition(p, ds[j])
    requires multiset(Quoted(p, cs[1..])) == multiset(Quoted(p, ds[..j] + ds[j + 1..]))
    requires multiset(Encodings(p, cs[1..])) == multiset(Encodings(p, ds[..j] + ds[j + 1..]))
    ensures multiset(Quoted(p, cs)) == multiset(Quoted(p, ds))
    ensures multiset(Encodings(p, cs)) == multiset(Encodings(p, ds))
  {
    hide CanonicalCondition, Quoted, Encodings, Quote;
    EncodingsCut(p, cs, 0);
    EncodingsCut(p, ds, j);
    assert cs[..0] + cs[0 + 1..] == cs[1..];
  }

  lemma EncodingsCut(p: Print, cs: seq<Condition>, j: nat)
    requires j < |cs|
    ensures var rest := cs[..j] + cs[j + 1..];
      && multiset(Quoted(p, cs)) == multiset{Quote(p, CanonicalCondition(p, cs[j]))} + multiset(Quoted(p, rest))
      && multiset(Encodings(p, cs)) == multiset{CanonicalCondition(p, cs[j])} + multiset(Encodings(p, rest))
  {
    hide CanonicalCondition, Quote, Quoted;
    QuotedCut(p, cs, j);
    var b := Encodings(p, cs);
    TakeOut(b, j);
    assert b[..j] + b[j + 1..] == Encodings(p, cs[..j] + cs[j + 1..]);
  }

  lemma QuotedCut(p: Print, cs: seq<Condition>, j: nat)
    requires j < |cs|
    ensures multiset(Quoted(p, cs))
         == multiset{Quote(p, CanonicalCondition(p, cs[j]))} + multiset(Quoted(p, cs[..j] + cs[j + 1..]))
  {
    hide CanonicalCondition, Quote;
    var a := Quoted(p, cs);
    TakeOut(a, j);
    assert a[..j] + a[j + 1..] == Quoted(p, cs[..j] + cs[j + 1..]);
  }

  /** The encoding is free of declaration order and of operand spelling, at every depth. */
  lemma EncodingForgetsOrder(p: Print, f: Filter, g: Filter)
    requires RearrangedBags(p, f, g)
    ensures CanonicalBytes(p, f) == CanonicalBytes(p, g)
  {
    TextOrder();
    RearrangedQuotes(p, f, g);
    SortForgetsOrder(TextLe, Encodings(p, f), Encodings(p, g));
  }

  // ---- and nothing else does ----

  lemma {:induction false} OperandsAlike(p: Print, vs: seq<Value>, ws: seq<Value>)
    requires multiset(Scalars(p, vs)) == multiset(Scalars(p, ws))
    ensures AlikeBags(p, vs, ws)
  {
    hide CanonicalScalar, Alike, Scalars;
    assert |vs| == |multiset(Scalars(p, vs))| == |ws|;
    if vs != [] {
      var j := OperandPartner(p, vs, ws);
      OperandsAlike(p, vs[1..], ws[..j] + ws[j + 1..]);
    }
  }

  lemma OperandPartner(p: Print, vs: seq<Value>, ws: seq<Value>) returns (j: nat)
    requires vs != [] && multiset(Scalars(p, vs)) == multiset(Scalars(p, ws))
    ensures j < |ws| && Alike(p, vs[0], ws[j])
    ensures multiset(Scalars(p, vs[1..])) == multiset(Scalars(p, ws[..j] + ws[j + 1..]))
  {
    hide CanonicalScalar, Alike, Scalars;
    j := Counterpart<string>(Scalars(p, vs), Scalars(p, ws), 0);
    AlikeScalars(p, vs[0], ws[j]);
    ScalarsCut(p, vs, 0);
    ScalarsCut(p, ws, j);
    assert vs[..0] + vs[0 + 1..] == vs[1..];
    Cancel(CanonicalScalar(p, vs[0]), multiset(Scalars(p, vs[1..])), multiset(Scalars(p, ws[..j] + ws[j + 1..])));
  }

  lemma Cancel(u: string, a: multiset<string>, b: multiset<string>)
    requires multiset{u} + a == multiset{u} + b
    ensures a == b
  {
    assert a == (multiset{u} + a) - multiset{u};
    assert b == (multiset{u} + b) - multiset{u};
  }

  lemma {:induction false} SameRearranged(p: Print, c: Condition, d: Condition)
    requires PlainOps(c) && PlainOps(d) && CanonicalCondition(p, c) == CanonicalCondition(p, d)
    ensures Rearranged(p, c, d)
    decreases c, 1
  {
    assert CanonicalCondition(p, c) + "" == CanonicalCondition(p, d) + "";
    ConditionSplit(p, c, d, "", "");
    if c.op == Or {
      SameBags(p, c, d);
      if c.operand.Conditions? {
        BagsRearranged(p, c.operand.cs, Alternatives(d));
      } else {
        assert Quoted(p, Alternatives(c)) == [] && |multiset(Quoted(p, Alternatives(d)))| == |Alternatives(d)|;
      }
    } else {
      SimpleRearranged(p, c, d);
    }
  }

  lemma SimpleRearranged(p: Print, c: Condition, d: Condition)
    requires c.op != Or && d.op != Or && PlainOps(c) && PlainOps(d)
    requires CanonicalCondition(p, c) == CanonicalCondition(p, d)
    ensures Rearranged(p, c, d)
  {
    hide CanonicalScalar, Quote;
    assert CanonicalCondition(p, c) + "" == CanonicalCondition(p, d) + "";
    SimpleSplit(p, c, d, "", "");
    if c.op == In || c.op == Any {
      ListSplit(p, ToSlice(c.operand), ToSlice(d.operand), "", "");
      OperandsAlike(p, ToSlice(c.operand), ToSlice(d.operand));
    } else {
      var a, b := CanonicalOperand(p, c.op, c.operand), CanonicalOperand(p, d.op, d.operand);
      assert a + "" == a && b + "" == b;
      AlikeScalars(p, OperandValue(c.operand), OperandValue(d.operand));
    }
  }

  lemma {:induction false} BagsRearranged(p: Print, cs: seq<Condition>, ds: seq<Condition>)
    requires PlainFilter(cs) && PlainFilter(ds) && multiset(Quoted(p, cs)) == multiset(Quoted(p, ds))
    ensures RearrangedBags(p, cs, ds)
    decreases cs, 0
  {
    hide CanonicalCondition, Quote, PlainOps, Quoted, Rearranged;
    assert |cs| == |multiset(Quoted(p, cs))| == |ds|;
    if cs != [] {
      var j := ConditionPartner(p, cs, ds);
      SameRearranged(p, cs[0], ds[j]);
      BagsRearranged(p, cs[1..], ds[..j] + ds[j + 1..]);
    }
  }

  lemma ConditionPartner(p: Print, cs: seq<Condition>, ds: seq<Condition>) returns (j: nat)
    requires cs != [] && multiset(Quoted(p, cs)) == multiset(Quoted(p, ds))
    ensures j < |ds| && CanonicalCondition(p, cs[0]) == CanonicalCondition(p, ds[j])
    ensures multiset(Quoted(p, cs[1..])) == multiset(Quoted(p, ds[..j] + ds[j + 1..]))
  {
    hide CanonicalCondition, Quote, Quoted;
    j := SameAlternative(p, cs, ds, 0);
    QuotedCut(p, cs, 0);
    QuotedCut(p, ds, j);
    assert cs[..0] + cs[0 + 1..] == cs[1..];
    Cancel(Quote(p, CanonicalCondition(p, cs[0])), multiset(Quoted(p, cs[1..])),
      multiset(Quoted(p, ds[..j] + ds[j + 1..])));
  }

  lemma {:induction false} EncodingsQuoted(p: Print, cs: seq<Condition>, ds: seq<Condition>)
    requires multiset(Encodings(p, cs)) == multiset(Encodings(p, ds))
    ensures multiset(Quoted(p, cs)) == multiset(Quoted(p, ds))
  {
    hide CanonicalCondition, Quote;
    assert |cs| == |multiset(Encodings(p, cs))| == |ds|;
    if cs == [] {
      assert Quoted(p, cs) == [] == Quoted(p, ds);
    } else {
      var j := Counterpart<string>(Encodings(p, cs), Encodings(p, ds), 0);
      var rest := ds[..j] + ds[j + 1..];
      EncodingsCut(p, cs, 0);
      EncodingsCut(p, ds, j);
      assert cs[..0] + cs[0 + 1..] == cs[1..];
      Cancel(CanonicalCondition(p, cs[0]), multiset(Encodings(p, cs[1..])), multiset(Encodings(p, rest)));
      EncodingsQuoted(p, cs[1..], rest);
    }
  }

  /** Two filters have equal bytes exactly when one is the other with its conditions, alternatives and list operands in
      any order, at every depth, and with operands that read alike. */
  lemma EncodingExact(p: Print, f: Filter, g: Filter)
    requires PlainFilter(f) && PlainFilter(g)
    ensures CanonicalBytes(p, f) == CanonicalBytes(p, g) <==> RearrangedBags(p, f, g)
  {
    if RearrangedBags(p, f, g) { EncodingForgetsOrder(p, f, g); }
    if CanonicalBytes(p, f) == CanonicalBytes(p, g) && f != [] {
      SameEncodings(p, f, g);
      EncodingsQuoted(p, f, g);
      BagsRearranged(p, f, g);
    }
  }

  /** Filters that select the same documents need not encode alike: an equality, and membership in a list of one. */
  lemma EquivalentFiltersDiffer(p: Print, key: string, s: string)
    ensures var f, g := [Condition(key, Eq, Plain(Text(s)))], [Condition(key, In, Plain(Strings([s])))];
      && (forall meta :: Matches(p.lib, f, meta) <==> Matches(p.lib, g, meta))
      && CanonicalBytes(p, f) != CanonicalBytes(p, g)
  {
    var c, d := Condition(key, Eq, Plain(Text(s))), Condition(key, In, Plain(Strings([s])));
    forall meta ensures Matches(p.lib, [c], meta) <==> Matches(p.lib, [d], meta) {
      assert c in [c] && d in [d] && ToSlice(d.operand) == [Text(s)];
    }
    var x, y := CanonicalCondition(p, c), CanonicalCondition(p, d);
    var n := |Quote(p, key)|;
    assert x[n + 1] == 'e' && y[n + 1] == 'i';
    assert Encodings(p, [c]) == [x] && Encodings(p, [d]) == [y];
    var xs, ys := [x], [y];
    assert xs[1..] == [] && ys[1..] == [];
    assert Sort(TextLe, xs) == xs && Sort(TextLe, ys) == ys;
  }

  // ---- the encoder as the source writes it: slices grown in loops, sorted, joined ----

  method EncodeOperand(p: Print, op: FilterOp, o: Operand) returns (r: string)
    ensures r == CanonicalOperand(p, op, o)
  {
    if op != In && op != Any { return CanonicalScalar(p, OperandValue(o)); }
    var elements := ToSlice(o);
    var tokens: seq<string> := [];
    for i := 0 to |elements|
      invariant tokens == Scalars(p, elements[..i])
    {
      tokens := tokens + [CanonicalScalar(p, elements[i])];
    }
    assert elements[..|elements|] == elements;
    r := "[" + Join(Sort(TextLe, tokens), ',') + "]";
  }

  method EncodeCondition(p: Print, c: Condition) returns (r: string)
    ensures r == CanonicalCondition(p, c)
    decreases c
  {
    hide Quote, CanonicalOperand, OpName, Sort, Join;
    if c.op == Or {
      var cs := Alternatives(c);
      var alternatives: seq<string> := [];
      for i := 0 to |cs|
        invariant alternatives == Quoted(p, cs[..i])
      {
        assert cs[i] in cs;
        var sub := EncodeCondition(p, cs[i]);
        alternatives := alternatives + [Quote(p, sub)];
      }
      assert cs[..|cs|] == cs && Quoted(p, []) == [];
      r := OR_HEAD + Join(Sort(TextLe, alternatives), ',') + "]";
    } else {
      var o := EncodeOperand(p, c.op, c.operand);
      r := Quote(p, c.key) + "\0" + OpName(c.op) + "\0" + o;
    }
  }

  method EncodeFilter(p: Print, f: Filter) returns (r: Option<string>)
    ensures r == CanonicalBytes(p, f)
  {
    if f == [] { return None; }
    var conditions: seq<string> := [];
    for i := 0 to |f|
      invariant conditions == Encodings(p, f[..i])
    {
      var c := EncodeCondition(p, f[i]);
      conditions := conditions + [c];
    }
    assert f[..|f|] == f;
    r := Some(Join(Sort(TextLe, conditions), '\n'));
  }
}
