/** index/filter.go and internal/filternorm: metadata values, their normalisation, and the
    reference evaluator of a metadata filter. */
module Filters {
  import opened Wrappers
  import opened Order

  /** A Go value of type any. Every integer and float64 kind is a Number, which holds it as Go writes it: an integer in
      full, a float64 by its shortest decimal. */
  datatype Value =
    | Nil
    | Bool(b: bool)
    | Number(x: real)
    | Text(s: string)
    | Time(t: int)
    | Bytes(data: seq<bv8>)
    | NilBytes                       // a nil []byte, which encoding/json writes as null
    | Slice(elems: seq<Value>)       // []any
    | Strings(texts: seq<string>)    // []string
    | TypedSlice(elems: seq<Value>)  // any other slice or array
    | Map(m: map<string, Value>)

  /** The JSON document a store keeps. */
  datatype Json =
    | JNull
    | JBool(b: bool)
    | JNum(x: real)
    | JText(s: string)
    | JArr(elems: seq<Json>)
    | JObj(m: map<string, Json>)

  /** Library calls the filter rules rest on: time.Parse and Format, the float64 nearest to a number, the shortest
      decimal of a float64, and the base64 text encoding/json writes for a []byte. */
  datatype Library = Library(
    parseTime: string -> Option<int>,
    formatTime: int -> string,
    round: real -> real,
    decimal: real -> real,
    base64: seq<bv8> -> string)

  ghost predicate Lawful(l: Library) {
    && (forall t :: l.parseTime(l.formatTime(t)).Some?
          ==> l.formatTime(l.parseTime(l.formatTime(t)).value) == l.formatTime(t))
    && (forall x :: l.round(l.round(x)) == l.round(x))
    && (forall x :: l.round(l.decimal(l.round(x))) == l.round(x))
    && Monotone(l.round)
    && (forall d :: l.parseTime(l.base64(d)).None?)
  }

  ghost predicate Monotone(f: real -> real) { forall x, y | x <= y :: f(x) <= f(y) }

  type Lib = l: Library | Lawful(l)
    ghost witness Library(s => None, t => "", x => x, x => x, d => "")

  /** filternorm.Value */
  function Norm(l: Lib, v: Value): Value {
    match v
    case Time(t) => Text(l.formatTime(t))
    case Text(s) => if l.parseTime(s).Some? then Text(l.formatTime(l.parseTime(s).value)) else v
    case _ => v
  }

  /** filternorm.Elements */
  function Elements(v: Value): Option<seq<Value>> {
    match v
    case Slice(es) => Some(es)
    case TypedSlice(es) => Some(es)
    case Strings(ts) => Some(seq(|ts|, i requires 0 <= i < |ts| => Text(ts[i])))
    case _ => None
  }

  function NormAll(l: Lib, vs: seq<Value>): (r: seq<Value>)
    ensures |r| == |vs| && forall i | 0 <= i < |vs| :: r[i] == Norm(l, vs[i])
  {
    seq(|vs|, i requires 0 <= i < |vs| => Norm(l, vs[i]))
  }

  /** One entry of filternorm.Metadata */
  function NormEntry(l: Lib, v: Value): Value {
    match Elements(v)
    case Some(es) => Slice(NormAll(l, es))
    case None => Norm(l, v)
  }

  function Float(l: Lib, v: Value): Option<real> {
    if v.Number? then Some(l.round(v.x)) else None
  }

  /** filternorm.Equal */
  predicate Equal(l: Lib, a: Value, b: Value) {
    var a, b := Norm(l, a), Norm(l, b);
    if Float(l, a).Some? then Float(l, b).Some? && Float(l, a) == Float(l, b)
    else if a.Text? then b.Text? && a.s == b.s
    else if a.Bool? then b.Bool? && a.b == b.b
    else false
  }

  /** filternorm.Compare; None is its false flag. */
  function CompareValues(l: Lib, a: Value, b: Value): Option<int> {
    var a, b := Norm(l, a), Norm(l, b);
    if Float(l, a).Some? then
      match Float(l, b)
      case None => None
      case Some(y) =>
        var x := Float(l, a).value;
        Some(if x < y then -1 else if x > y then 1 else 0)
    else if a.Text? && b.Text? then Some(Compare(a.s, b.s))
    else None
  }

  datatype FilterOp = Eq | Ne | Gt | Gte | Lt | Lte | In | Any | Exists | Or | Undeclared(name: string)

  datatype Operand = Plain(v: Value) | Conditions(cs: seq<Condition>)

  datatype Condition = Condition(key: string, op: FilterOp, operand: Operand)

  type Filter = seq<Condition>

  type Metadata = map<string, Value>

  /** The operand as a Go value: a []Condition is a slice no comparison accepts. */
  function OperandValue(o: Operand): Value {
    match o
    case Plain(v) => v
    case Conditions(cs) => TypedSlice([])
  }

  /** Condition.Conditions: nil unless the operand is a []Condition. */
  function Alternatives(c: Condition): (cs: seq<Condition>)
    ensures forall s | s in cs :: s < c
  {
    match c.operand
    case Plain(_) => []
    case Conditions(cs) => cs
  }

  function ToSlice(o: Operand): seq<Value> {
    match OperandValue(o)
    case Slice(es) => es
    case Strings(ts) => seq(|ts|, i requires 0 <= i < |ts| => Text(ts[i]))
    case v => [v]
  }

  predicate OrderHolds(op: FilterOp, cmp: int) {
    match op
    case Gt => cmp > 0
    case Gte => cmp >= 0
    case Lt => cmp < 0
    case Lte => cmp <= 0
    case _ => false
  }

  /** Condition.matches */
  predicate ConditionMatches(l: Lib, c: Condition, meta: Metadata) {
    if c.op == Or then exists s | s in Alternatives(c) :: ConditionMatches(l, s, meta)
    else if c.op == Exists then
      OperandValue(c.operand).Bool? && OperandValue(c.operand).b == (c.key in meta)
    else if c.key !in meta then false
    else
      var value := meta[c.key];
      match c.op
      case Eq => Equal(l, value, OperandValue(c.operand))
      case Ne => !Equal(l, value, OperandValue(c.operand))
      case In => exists o | o in ToSlice(c.operand) :: Equal(l, value, o)
      case Any =>
        Elements(value).Some?
        && exists o | o in ToSlice(c.operand) :: exists e | e in Elements(value).value :: Equal(l, e, o)
      case Undeclared(_) => false
      case Gt | Gte | Lt | Lte =>
        var cmp := CompareValues(l, value, OperandValue(c.operand));
        cmp.Some? && OrderHolds(c.op, cmp.value)
  }

  /** Filter.Matches */
  predicate Matches(l: Lib, f: Filter, meta: Metadata) {
    forall c | c in f :: ConditionMatches(l, c, meta)
  }

  predicate KeyChar(c: char) {
    'a' <= c <= 'z' || 'A' <= c <= 'Z' || '0' <= c <= '9' || c == '_' || c == '-'
  }

  predicate ValidKey(k: string) {
    1 <= |k| <= 128 && forall c | c in k :: KeyChar(c)
  }

  predicate ValidCondition(c: Condition) {
    if c.op == Or then c.operand.Conditions? && forall s | s in Alternatives(c) :: ValidCondition(s)
    else ValidKey(c.key)
  }

  /** Filter.Validate */
  predicate Valid(f: Filter) {
    forall c | c in f :: ValidCondition(c)
  }

  // ---- the write path and the read path of a store ----

  function ToJson(l: Lib, v: Value): Json {
    match v
    case Nil | NilBytes => JNull
    case Bool(b) => JBool(b)
    case Number(x) => JNum(x)
    case Text(s) => JText(s)
    case Time(t) => JText(l.formatTime(t))
    case Bytes(d) => JText(l.base64(d))
    case Slice(es) => JArr(seq(|es|, i requires 0 <= i < |es| => ToJson(l, es[i])))
    case TypedSlice(es) => JArr(seq(|es|, i requires 0 <= i < |es| => ToJson(l, es[i])))
    case Strings(ts) => JArr(seq(|ts|, i requires 0 <= i < |ts| => JText(ts[i])))
    case Map(m) => JObj(map k | k in m :: ToJson(l, m[k]))
  }

  /** json.Unmarshal into any: every number becomes a float64. */
  function FromJson(l: Lib, j: Json): Value {
    match j
    case JNull => Nil
    case JBool(b) => Bool(b)
    case JNum(x) => Number(l.round(x))
    case JText(s) => Text(s)
    case JArr(es) => Slice(seq(|es|, i requires 0 <= i < |es| => FromJson(l, es[i])))
    case JObj(m) => Map(map k | k in m :: FromJson(l, m[k]))
  }

  /** A metadata row; a document without metadata has none. */
  type Row = Option<map<string, Json>>

  /** writeDocumentMetadata */
  function Store(l: Lib, meta: Metadata): Row {
    if |meta| == 0 then None else Some(map k | k in meta :: ToJson(l, NormEntry(l, meta[k])))
  }

  /** The metadata map read back from a row. */
  function Load(l: Lib, row: Row): Metadata {
    match row
    case None => map[]
    case Some(m) => map k | k in m :: FromJson(l, m[k])
  }

  // ---- what a value compares as ----

  /** A number is seen as the float64 nearest to it and the side of it on which it lies: -1, 0 or 1. */
  datatype Kind = NumKind(x: real, side: int) | TextKind(s: string) | BoolKind(b: bool) | NoKind

  function KindOf(l: Lib, v: Value): Kind {
    match Norm(l, v)
    case Number(x) => NumKind(l.round(x), 0)
    case Text(s) => TextKind(s)
    case Bool(b) => BoolKind(b)
    case _ => NoKind
  }

  /** Equality and order see nothing of a value but its kind. */
  lemma EqualByKind(l: Lib, a: Value, b: Value)
    ensures Equal(l, a, b) <==> KindOf(l, a) == KindOf(l, b) && KindOf(l, a) != NoKind
  {
  }

  function CompareKinds(a: Kind, b: Kind): Option<int> {
    match (a, b)
    case (NumKind(x, side), NumKind(y, _)) => Some(if x < y then -1 else if x > y then 1 else side)
    case (TextKind(s), TextKind(t)) => Some(Compare(s, t))
    case _ => None
  }

  lemma CompareByKind(l: Lib, a: Value, b: Value)
    ensures CompareValues(l, a, b) == CompareKinds(KindOf(l, a), KindOf(l, b))
  {
  }

  /** Normalising twice is normalising once. */
  lemma NormIdempotent(l: Lib, v: Value)
    ensures Norm(l, Norm(l, v)) == Norm(l, v)
  {
    match v
    case Time(t) =>
      assert l.parseTime(l.formatTime(t)).Some? ==> l.formatTime(l.parseTime(l.formatTime(t)).value) == l.formatTime(t);
    case Text(s) =>
      if l.parseTime(s).Some? {
        var t := l.parseTime(s).value;
        assert l.parseTime(l.formatTime(t)).Some? ==>
          l.formatTime(l.parseTime(l.formatTime(t)).value) == l.formatTime(t);
      }
    case _ =>
  }

  // ---- what a filter sees of a document ----

  /** All a condition can see of one value: its kind, and the kinds in it when it is an array. */
  datatype Sight = Sight(kind: Kind, elems: Option<set<Kind>>)

  function SightOf(l: Lib, v: Value): Sight {
    Sight(KindOf(l, v),
      match Elements(v)
      case None => None
      case Some(es) => Some(set e | e in es && KindOf(l, e) != NoKind :: KindOf(l, e)))
  }

  function See(l: Lib, meta: Metadata): map<string, Sight> {
    map k | k in meta :: SightOf(l, meta[k])
  }

  /** Who reads a stored number: Go, after json.Unmarshal; PostgreSQL, as a numeric; SQLite, as an INTEGER or a REAL. */
  datatype Reader = GoReader | PostgresReader | SqliteReader

  /** json_extract and je.value give a 64-bit integer exactly and any other number as a REAL. */
  function SqliteReads(l: Lib, x: real): real { if IsInt64(x) then x else l.round(x) }

  predicate IsInt64(x: real) { x == x.Floor as real && -0x8000_0000_0000_0000 <= x.Floor < 0x8000_0000_0000_0000 }

  function Sign(x: real): int { if x < 0.0 then -1 else if x > 0.0 then 1 else 0 }

  /** The side of its float64 on which a reader sees the stored number x: PostgreSQL receives a float64 as its shortest
      decimal, SQLite receives it exactly. */
  function Side(l: Lib, r: Reader, x: real): int {
    match r
    case GoReader => 0
    case PostgresReader => Sign(x - l.decimal(l.round(x)))
    case SqliteReader => Sign(SqliteReads(l, x) - l.round(x))
  }

  /** What a stored value compares as, normalised text being left as it is. */
  function JsonKind(l: Lib, r: Reader, j: Json): Kind {
    match j
    case JNum(x) => NumKind(l.round(x), Side(l, r, x))
    case JText(s) => TextKind(s)
    case JBool(b) => BoolKind(b)
    case _ => NoKind
  }

  function JsonSight(l: Lib, r: Reader, j: Json): Sight {
    Sight(JsonKind(l, r, j),
      if j.JArr? then Some(set e | e in j.elems && JsonKind(l, r, e) != NoKind :: JsonKind(l, r, e)) else None)
  }

  function SeeRow(l: Lib, r: Reader, row: Row): map<string, Sight> {
    match row
    case None => map[]
    case Some(m) => map k | k in m :: JsonSight(l, r, m[k])
  }

  /** The filter rules over sights. */
  predicate SightMatches(l: Lib, c: Condition, seen: map<string, Sight>) {
    if c.op == Or then exists s | s in Alternatives(c) :: SightMatches(l, s, seen)
    else if c.op == Exists then
      OperandValue(c.operand).Bool? && OperandValue(c.operand).b == (c.key in seen)
    else c.key in seen && SightHolds(l, c, seen[c.key])
  }

  /** A comparison against the value under its key. */
  predicate SightHolds(l: Lib, c: Condition, sight: Sight)
    requires c.op != Or && c.op != Exists
  {
    match c.op
    case Eq => SameKind(sight.kind, KindOf(l, OperandValue(c.operand)))
    case Ne => !SameKind(sight.kind, KindOf(l, OperandValue(c.operand)))
    case In => exists o | o in ToSlice(c.operand) :: SameKind(sight.kind, KindOf(l, o))
    case Any =>
      sight.elems.Some? && exists o | o in ToSlice(c.operand) :: KindOf(l, o) in sight.elems.value
    case Undeclared(_) => false
    case Gt | Gte | Lt | Lte =>
      var cmp := CompareKinds(sight.kind, KindOf(l, OperandValue(c.operand)));
      cmp.Some? && OrderHolds(c.op, cmp.value)
  }

  predicate SameKind(a: Kind, b: Kind) { a == b && a != NoKind }

  lemma AnyBySight(l: Lib, v: Value, os: seq<Value>)
    requires Elements(v).Some?
    ensures (exists o | o in os :: exists e | e in Elements(v).value :: Equal(l, e, o))
       <==> (exists o | o in os :: KindOf(l, o) in SightOf(l, v).elems.value)
  {
    forall e, o ensures Equal(l, e, o) <==> SameKind(KindOf(l, e), KindOf(l, o)) { EqualByKind(l, e, o); }
  }

  /** A condition judges a document by its sight alone. */
  lemma {:induction false} MatchesBySight(l: Lib, c: Condition, meta: Metadata)
    ensures ConditionMatches(l, c, meta) <==> SightMatches(l, c, See(l, meta))
    decreases c
  {
    if c.op == Or {
      forall s | s in Alternatives(c) { MatchesBySight(l, s, meta); }
    } else if c.op != Exists && c.key in meta {
      var v := meta[c.key];
      assert See(l, meta)[c.key] == SightOf(l, v);
      forall o ensures Equal(l, v, o) <==> SameKind(KindOf(l, v), KindOf(l, o)) { EqualByKind(l, v, o); }
      CompareByKind(l, v, OperandValue(c.operand));
      if c.op == Any && Elements(v).Some? { AnyBySight(l, v, ToSlice(c.operand)); }
    }
  }

  lemma SameSightSameVerdict(l: Lib, f: Filter, a: Metadata, b: Metadata)
    requires See(l, a) == See(l, b)
    ensures Matches(l, f, a) <==> Matches(l, f, b)
  {
    forall c | c in f ensures ConditionMatches(l, c, a) <==> ConditionMatches(l, c, b) {
      MatchesBySight(l, c, a);
      MatchesBySight(l, c, b);
    }
  }

  // ---- a stored document against the one in memory ----

  /** A []byte turns into text in the store, and no element already reads as that text. */
  predicate Blurred(l: Lib, v: Value) {
    v.Bytes?
    || (Elements(v).Some? && exists e | e in Elements(v).value ::
          e.Bytes? && TextKind(l.base64(e.data)) !in SightOf(l, v).elems.value)
  }

  function Stored(l: Lib, v: Value): Value { FromJson(l, ToJson(l, NormEntry(l, v))) }

  lemma StoredKind(l: Lib, v: Value)
    ensures KindOf(l, FromJson(l, ToJson(l, Norm(l, v))))
      == if v.Bytes? then TextKind(l.base64(v.data)) else KindOf(l, v)
  {
    NormIdempotent(l, v);
    match v
    case Number(x) => assert l.round(l.round(x)) == l.round(x);
    case Bytes(d) => assert l.parseTime(l.base64(d)).None?;
    case _ =>
  }

  lemma StoredElements(l: Lib, v: Value)
    ensures Elements(v).Some? <==> Elements(Stored(l, v)).Some?
    ensures Elements(v).Some? ==>
      var vs, ws := Elements(v).value, Elements(Stored(l, v)).value;
      |ws| == |vs| && forall i | 0 <= i < |vs| :: ws[i] == FromJson(l, ToJson(l, Norm(l, vs[i])))
  {
  }

  lemma StoredSight(l: Lib, v: Value)
    ensures SightOf(l, Stored(l, v)) == SightOf(l, v) <==> !Blurred(l, v)
  {
    StoredElements(l, v);
    if Elements(v).None? {
      StoredKind(l, v);
    } else {
      var was, now := SightOf(l, v).elems.value, SightOf(l, Stored(l, v)).elems.value;
      forall k ensures k in now <==> k in was || exists e | e in Elements(v).value :: BlursInto(l, e, k) {
        StoredMember(l, v, k);
      }
      if Blurred(l, v) {
        var e :| e in Elements(v).value && e.Bytes? && TextKind(l.base64(e.data)) !in was;
        assert BlursInto(l, e, TextKind(l.base64(e.data)));
      } else {
        assert was == now;
      }
    }
  }

  predicate BlursInto(l: Lib, e: Value, k: Kind) { e.Bytes? && k == TextKind(l.base64(e.data)) }

  lemma StoredMember(l: Lib, v: Value, k: Kind)
    requires Elements(v).Some?
    ensures SightOf(l, Stored(l, v)).elems.Some?
    ensures k in SightOf(l, Stored(l, v)).elems.value <==>
              k in SightOf(l, v).elems.value || exists e | e in Elements(v).value :: BlursInto(l, e, k)
  {
    StoredElements(l, v);
    var vs, ws := Elements(v).value, Elements(Stored(l, v)).value;
    forall i | 0 <= i < |vs|
      ensures KindOf(l, ws[i]) == if vs[i].Bytes? then TextKind(l.base64(vs[i].data)) else KindOf(l, vs[i])
    {
      StoredKind(l, vs[i]);
    }
    StoredKinds(l, vs, ws, k);
  }

  lemma StoredKinds(l: Lib, vs: seq<Value>, ws: seq<Value>, k: Kind)
    requires |vs| == |ws| && forall i | 0 <= i < |vs| ::
      KindOf(l, ws[i]) == if vs[i].Bytes? then TextKind(l.base64(vs[i].data)) else KindOf(l, vs[i])
    ensures (k != NoKind && exists w | w in ws :: KindOf(l, w) == k)
       <==> (k != NoKind && exists v | v in vs :: KindOf(l, v) == k) || exists e | e in vs :: BlursInto(l, e, k)
  {
    assert forall v: Value | v.Bytes? :: KindOf(l, v) == NoKind;
    hide KindOf;
    if k != NoKind {
      if w :| w in ws && KindOf(l, w) == k {
        var i :| 0 <= i < |ws| && ws[i] == w;
        assert vs[i] in vs && (BlursInto(l, vs[i], k) || KindOf(l, vs[i]) == k);
      }
      if e :| e in vs && (BlursInto(l, e, k) || KindOf(l, e) == k) {
        var i :| 0 <= i < |vs| && vs[i] == e;
        assert ws[i] in ws && KindOf(l, ws[i]) == k;
      }
    }
  }

  /** The store keeps what filters see of a document exactly when no []byte is blurred into text:
      the evaluator over reloaded metadata then agrees with the evaluator over the metadata handed in,
      and otherwise some filter tells them apart. */
  lemma StoreKeepsVerdicts(l: Lib, meta: Metadata)
    ensures (forall f :: Matches(l, f, meta) <==> Matches(l, f, Load(l, Store(l, meta))))
       <==> (forall k | k in meta :: !Blurred(l, meta[k]))
  {
    hide Matches, Load, Store, See;
    if forall k | k in meta :: !Blurred(l, meta[k]) {
      UnblurredSight(l, meta);
      forall f { SameSightSameVerdict(l, f, meta, Load(l, Store(l, meta))); }
    } else {
      var k :| k in meta && Blurred(l, meta[k]);
      LoadedEntries(l, meta);
      var c := BlurProbe(l, meta, Load(l, Store(l, meta)), k);
      assert Matches(l, [c], meta) != Matches(l, [c], Load(l, Store(l, meta)));
    }
  }

  lemma LoadedEntries(l: Lib, meta: Metadata)
    ensures Load(l, Store(l, meta)).Keys == meta.Keys
    ensures forall k | k in meta :: Load(l, Store(l, meta))[k] == Stored(l, meta[k])
  {
  }

  lemma UnblurredSight(l: Lib, meta: Metadata)
    requires forall k | k in meta :: !Blurred(l, meta[k])
    ensures See(l, Load(l, Store(l, meta))) == See(l, meta)
  {
    hide Stored, SightOf, Blurred, Load, Store;
    LoadedEntries(l, meta);
    var back := Load(l, Store(l, meta));
    forall k | k in meta ensures SightOf(l, back[k]) == SightOf(l, meta[k]) { StoredSight(l, meta[k]); }
    SameEntries(l, meta, back);
  }

  lemma SameEntries(l: Lib, a: Metadata, b: Metadata)
    requires a.Keys == b.Keys && forall k | k in a :: SightOf(l, a[k]) == SightOf(l, b[k])
    ensures See(l, a) == See(l, b)
  {
    hide SightOf;
  }

  lemma BlurProbe(l: Lib, meta: Metadata, back: Metadata, k: string) returns (c: Condition)
    requires k in meta && k in back && back[k] == Stored(l, meta[k]) && Blurred(l, meta[k])
    ensures Matches(l, [c], meta) != Matches(l, [c], back)
  {
    var op := if meta[k].Bytes? then Eq else Any;
    var d := BlurredText(l, meta[k]);
    c := Condition(k, op, Plain(Text(l.base64(d))));
    BlurTold(l, See(l, meta), See(l, back), k, d);
    Told(l, meta, back, c);
  }

  lemma BlurTold(l: Lib, was: map<string, Sight>, now: map<string, Sight>, k: string, d: seq<bv8>)
    requires k in was && k in now
    ensures was[k].kind != TextKind(l.base64(d)) && now[k].kind == TextKind(l.base64(d)) ==>
      var c := Condition(k, Eq, Plain(Text(l.base64(d))));
      SightMatches(l, c, was) != SightMatches(l, c, now)
    ensures (was[k].elems.Some? && now[k].elems.Some?
      && TextKind(l.base64(d)) !in was[k].elems.value && TextKind(l.base64(d)) in now[k].elems.value) ==>
      var c := Condition(k, Any, Plain(Text(l.base64(d))));
      SightMatches(l, c, was) != SightMatches(l, c, now)
  {
    assert l.parseTime(l.base64(d)).None?;
    var o := Text(l.base64(d));
    ProbeSees(l, Eq, k, o, was);
    ProbeSees(l, Eq, k, o, now);
    ProbeSees(l, Any, k, o, was);
    ProbeSees(l, Any, k, o, now);
  }

  lemma BlurredText(l: Lib, v: Value) returns (d: seq<bv8>)
    requires Blurred(l, v)
    ensures var was, now, k := SightOf(l, v), SightOf(l, Stored(l, v)), TextKind(l.base64(d));
      if v.Bytes? then was.kind != k && now.kind == k
      else was.elems.Some? && now.elems.Some? && k !in was.elems.value && k in now.elems.value
  {
    if v.Bytes? {
      d := v.data;
      StoredKind(l, v);
    } else {
      var e :| e in Elements(v).value && e.Bytes? && TextKind(l.base64(e.data)) !in SightOf(l, v).elems.value;
      d := e.data;
      assert BlursInto(l, e, TextKind(l.base64(d)));
      StoredMember(l, v, TextKind(l.base64(d)));
    }
  }

  /** What a one-operand Eq or Any condition tests. */
  lemma ProbeSees(l: Lib, op: FilterOp, k: string, o: Value, seen: map<string, Sight>)
    requires (op == Eq || op == Any) && k in seen && !o.Slice? && !o.Strings?
    ensures SightMatches(l, Condition(k, op, Plain(o)), seen) <==>
              if op == Eq then SameKind(seen[k].kind, KindOf(l, o))
              else seen[k].elems.Some? && KindOf(l, o) in seen[k].elems.value
  {
    assert ToSlice(Plain(o)) == [o];
    assert o in [o];
  }

  lemma Told(l: Lib, a: Metadata, b: Metadata, c: Condition)
    requires SightMatches(l, c, See(l, a)) != SightMatches(l, c, See(l, b))
    ensures Matches(l, [c], a) != Matches(l, [c], b)
  {
    MatchesBySight(l, c, a);
    MatchesBySight(l, c, b);
    assert c in [c];
    assert Matches(l, [c], a) == ConditionMatches(l, c, a);
    assert Matches(l, [c], b) == ConditionMatches(l, c, b);
  }

  // ---- the numbers in a row, as each side reads them ----

  /** A reader that compares what it reads of a stored number with what it receives for a float64 y follows
      CompareKinds. */
  lemma NumberOrder(l: Lib, x: real, y: real)
    requires l.round(y) == y
    ensures CompareKinds(JsonKind(l, PostgresReader, JNum(x)), NumKind(y, 0)) == Some(Sign(x - l.decimal(y)))
    ensures CompareKinds(JsonKind(l, SqliteReader, JNum(x)), NumKind(y, 0)) == Some(Sign(SqliteReads(l, x) - y))
  {
    assert l.round(l.decimal(l.round(y))) == y;
    assert l.round(l.round(x)) == l.round(x);
    RoundReflects(l, x, l.decimal(y));
    RoundReflects(l, SqliteReads(l, x), y);
  }

  lemma RoundReflects(l: Lib, x: real, y: real)
    ensures l.round(x) < l.round(y) ==> x < y
    ensures l.round(x) > l.round(y) ==> x > y
  {
    assert Monotone(l.round);
  }

  /** Normalised text in a value of depth one. */
  predicate Normalised(l: Lib, j: Json) {
    match j
    case JText(s) => Norm(l, Text(s)) == Text(s)
    case JArr(es) => forall e | e in es && e.JText? :: Norm(l, Text(e.s)) == Text(e.s)
    case _ => true
  }

  lemma ScalarRead(l: Lib, j: Json)
    requires j.JText? ==> Norm(l, Text(j.s)) == Text(j.s)
    ensures KindOf(l, FromJson(l, j)) == JsonKind(l, GoReader, j)
  {
    match j
    case JNum(x) => assert l.round(l.round(x)) == l.round(x);
    case _ =>
  }

  /** Go reads back exactly what SeeRow says it sees. */
  lemma ValueRead(l: Lib, j: Json)
    requires Normalised(l, j)
    ensures SightOf(l, FromJson(l, j)) == JsonSight(l, GoReader, j)
  {
    hide KindOf, JsonKind, Norm;
    ScalarReadAt(l, j);
    if j.JArr? {
      var js, vs := j.elems, Elements(FromJson(l, j)).value;
      assert |js| == |vs|;
      forall i | 0 <= i < |js| ensures vs[i] == FromJson(l, js[i]) && KindOf(l, vs[i]) == JsonKind(l, GoReader, js[i]) {
        ScalarRead(l, js[i]);
      }
      SameMembers(l, js, vs);
    }
  }

  lemma ScalarReadAt(l: Lib, j: Json)
    requires Normalised(l, j)
    ensures KindOf(l, FromJson(l, j)) == JsonKind(l, GoReader, j)
  {
    ScalarRead(l, j);
  }

  lemma SameMembers(l: Lib, js: seq<Json>, vs: seq<Value>)
    requires |js| == |vs| && forall i | 0 <= i < |js| :: KindOf(l, vs[i]) == JsonKind(l, GoReader, js[i])
    ensures (set e | e in vs && KindOf(l, e) != NoKind :: KindOf(l, e))
         == (set e | e in js && JsonKind(l, GoReader, e) != NoKind :: JsonKind(l, GoReader, e))
  {
    hide KindOf, JsonKind;
    forall v | v in vs ensures exists j | j in js :: JsonKind(l, GoReader, j) == KindOf(l, v) {
      var i :| 0 <= i < |vs| && vs[i] == v;
      assert js[i] in js;
    }
    forall j | j in js ensures exists v | v in vs :: JsonKind(l, GoReader, j) == KindOf(l, v) {
      var i :| 0 <= i < |js| && js[i] == j;
      assert vs[i] in vs;
    }
  }

  lemma StoredIsNormalised(l: Lib, v: Value)
    ensures Normalised(l, ToJson(l, NormEntry(l, v)))
  {
    if Elements(v).Some? {
      var es, j := Elements(v).value, ToJson(l, NormEntry(l, v));
      assert |j.elems| == |es|;
      forall i | 0 <= i < |es| ensures j.elems[i].JText? ==> Norm(l, Text(j.elems[i].s)) == Text(j.elems[i].s) {
        assert j.elems[i] == ToJson(l, Norm(l, es[i]));
        ScalarIsNormalised(l, es[i]);
      }
    } else {
      ScalarIsNormalised(l, v);
    }
  }

  lemma ScalarIsNormalised(l: Lib, v: Value)
    ensures var j := ToJson(l, Norm(l, v)); j.JText? ==> Norm(l, Text(j.s)) == Text(j.s)
  {
    NormIdempotent(l, v);
    match v
    case Bytes(d) => assert l.parseTime(l.base64(d)).None?;
    case _ =>
  }

  /** The metadata read back is what the row shows to Go. */
  lemma GoReadsTheRow(l: Lib, meta: Metadata)
    ensures See(l, Load(l, Store(l, meta))) == SeeRow(l, GoReader, Store(l, meta))
  {
    hide Normalised, SightOf, JsonSight, ToJson, FromJson, NormEntry;
    forall k | k in meta
      ensures SightOf(l, Stored(l, meta[k])) == JsonSight(l, GoReader, ToJson(l, NormEntry(l, meta[k])))
    {
      StoredIsNormalised(l, meta[k]);
      ValueRead(l, ToJson(l, NormEntry(l, meta[k])));
    }
    LoadedEntries(l, meta);
  }

  // ---- two readers of one row ----

  /** Some number in an array is read as the float64 nearest to x. */
  predicate Held(l: Lib, r: Reader, es: seq<Json>, x: real) {
    exists e | e in es && e.JNum? :: l.round(e.x) == l.round(x) && Side(l, r, e.x) == 0
  }

  /** Two readers see a number on the same side of its float64; in an array, they find the same float64s. */
  predicate ReadAlike(l: Lib, a: Reader, b: Reader, j: Json) {
    match j
    case JNum(x) => Side(l, a, x) == Side(l, b, x)
    case JArr(es) => forall e | e in es && e.JNum? :: Held(l, a, es, e.x) <==> Held(l, b, es, e.x)
    case _ => true
  }

  predicate RowReadAlike(l: Lib, a: Reader, b: Reader, row: Row) {
    row.Some? ==> forall k | k in row.value && ValidKey(k) :: ReadAlike(l, a, b, row.value[k])
  }

  /** A number is its float64 to the reader; in an array, the float64 nearest to each number is found. */
  predicate ExactValue(l: Lib, r: Reader, j: Json) {
    match j
    case JNum(x) => Side(l, r, x) == 0
    case JArr(es) => forall e | e in es && e.JNum? :: Held(l, r, es, e.x)
    case _ => true
  }

  predicate Exact(l: Lib, r: Reader, row: Row) {
    row.Some? ==> forall k | k in row.value && ValidKey(k) :: ExactValue(l, r, row.value[k])
  }

  /** A single number is exact to PostgreSQL when it is the shortest decimal of a float64, and to SQLite when it is a
      float64 or no 64-bit integer. */
  lemma ExactNumber(l: Lib, x: real)
    ensures Side(l, PostgresReader, x) == 0 <==> x == l.decimal(l.round(x))
    ensures Side(l, SqliteReader, x) == 0 <==> (IsInt64(x) ==> x == l.round(x))
    ensures !IsInt64(x) ==> (ReadAlike(l, SqliteReader, PostgresReader, JNum(x)) <==> x == l.decimal(l.round(x)))
  {
  }

  lemma ExactIsAlike(l: Lib, r: Reader, row: Row)
    ensures Exact(l, r, row) <==> RowReadAlike(l, r, GoReader, row)
  {
    hide Side;
    forall k | row.Some? && k in row.value
      ensures ExactValue(l, r, row.value[k]) <==> ReadAlike(l, r, GoReader, row.value[k])
    {
      GoHolds(l, row.value[k]);
    }
  }

  lemma GoHolds(l: Lib, j: Json)
    ensures j.JNum? ==> Side(l, GoReader, j.x) == 0
    ensures j.JArr? ==> forall e | e in j.elems && e.JNum? :: Held(l, GoReader, j.elems, e.x)
  {
  }

  lemma HeldIsSeen(l: Lib, r: Reader, es: seq<Json>, x: real)
    ensures Held(l, r, es, x) <==> NumKind(l.round(x), 0) in JsonSight(l, r, JArr(es)).elems.value
  {
    hide Side;
  }

  /** Only numbers look different to two readers. */
  lemma OtherKindsAlike(l: Lib, a: Reader, b: Reader, es: seq<Json>, k: Kind)
    requires !k.NumKind?
    ensures k in JsonSight(l, a, JArr(es)).elems.value <==> k in JsonSight(l, b, JArr(es)).elems.value
  {
    hide Side;
  }

  lemma OperandIsRound(l: Lib, o: Value)
    ensures KindOf(l, o).NumKind? ==>
      KindOf(l, o).side == 0 && l.round(KindOf(l, o).x) == KindOf(l, o).x
  {
    match Norm(l, o)
    case Number(x) => assert l.round(l.round(x)) == l.round(x);
    case _ =>
  }

  lemma ArraysAlike(l: Lib, a: Reader, b: Reader, es: seq<Json>, o: Value)
    requires ReadAlike(l, a, b, JArr(es))
    ensures KindOf(l, o) in JsonSight(l, a, JArr(es)).elems.value
      <==> KindOf(l, o) in JsonSight(l, b, JArr(es)).elems.value
  {
    var k := KindOf(l, o);
    OperandIsRound(l, o);
    if k.NumKind? {
      HeldIsSeen(l, a, es, k.x);
      HeldIsSeen(l, b, es, k.x);
      hide KindOf, JsonSight, Side;
      if e :| e in es && e.JNum? && l.round(e.x) == k.x {
        assert Held(l, a, es, e.x) == Held(l, a, es, k.x) && Held(l, b, es, e.x) == Held(l, b, es, k.x);
      }
    } else {
      OtherKindsAlike(l, a, b, es, k);
    }
  }

  lemma {:induction false} AlikeVerdict(l: Lib, a: Reader, b: Reader, c: Condition, row: Row)
    requires RowReadAlike(l, a, b, row) && ValidCondition(c)
    ensures SightMatches(l, c, SeeRow(l, a, row)) <==> SightMatches(l, c, SeeRow(l, b, row))
    decreases c
  {
    hide JsonSight, ReadAlike;
    if c.op == Or {
      forall s | s in Alternatives(c) { AlikeVerdict(l, a, b, s, row); }
    } else if c.op != Exists && row.Some? && c.key in row.value {
      EntryAlike(l, a, b, c, row.value[c.key]);
    }
  }

  lemma EntryAlike(l: Lib, a: Reader, b: Reader, c: Condition, j: Json)
    requires c.op != Or && c.op != Exists && ReadAlike(l, a, b, j)
    ensures SightHolds(l, c, JsonSight(l, a, j)) <==> SightHolds(l, c, JsonSight(l, b, j))
  {
    hide Side, KindOf, OrderHolds;
    if j.JArr? && c.op == Any {
      forall o | o in ToSlice(c.operand)
        ensures KindOf(l, o) in JsonSight(l, a, j).elems.value <==> KindOf(l, o) in JsonSight(l, b, j).elems.value
      {
        ArraysAlike(l, a, b, j.elems, o);
      }
    }
  }

  /** A condition that tells two readers apart. */
  lemma Tell(l: Lib, a: Reader, b: Reader, j: Json, k: string) returns (c: Condition)
    requires ValidKey(k) && !ReadAlike(l, a, b, j)
    ensures c.key == k && c.op != Or && c.op != Exists && ValidCondition(c)
    ensures SightHolds(l, c, JsonSight(l, a, j)) != SightHolds(l, c, JsonSight(l, b, j))
  {
    if j.JNum? {
      c := TellNumber(l, a, b, j.x, k);
    } else {
      c := TellArray(l, a, b, j.elems, k);
    }
  }

  lemma TellNumber(l: Lib, a: Reader, b: Reader, x: real, k: string) returns (c: Condition)
    requires ValidKey(k) && Side(l, a, x) != Side(l, b, x)
    ensures c.key == k && c.op != Or && c.op != Exists && ValidCondition(c)
    ensures SightHolds(l, c, JsonSight(l, a, JNum(x))) != SightHolds(l, c, JsonSight(l, b, JNum(x)))
  {
    var op := if Side(l, a, x) == 0 || Side(l, b, x) == 0 then Eq else Gt;
    c := Condition(k, op, Plain(Number(x)));
    assert KindOf(l, Number(x)) == NumKind(l.round(x), 0);
    assert -1 <= Side(l, a, x) <= 1 && -1 <= Side(l, b, x) <= 1;
  }

  lemma TellArray(l: Lib, a: Reader, b: Reader, es: seq<Json>, k: string) returns (c: Condition)
    requires ValidKey(k) && !ReadAlike(l, a, b, JArr(es))
    ensures c.key == k && c.op != Or && c.op != Exists && ValidCondition(c)
    ensures SightHolds(l, c, JsonSight(l, a, JArr(es))) != SightHolds(l, c, JsonSight(l, b, JArr(es)))
  {
    hide JsonKind, Side, Held;
    var e :| e in es && e.JNum? && Held(l, a, es, e.x) != Held(l, b, es, e.x);
    c := Condition(k, Any, Plain(Number(e.x)));
    HeldIsSeen(l, a, es, e.x);
    HeldIsSeen(l, b, es, e.x);
    assert KindOf(l, Number(e.x)) == NumKind(l.round(e.x), 0);
    assert ToSlice(c.operand) == [Number(e.x)];
    assert Number(e.x) in ToSlice(c.operand);
  }

  /** Two readers give every valid condition the same verdict on a row exactly when they read its numbers alike. */
  lemma ReadersAgree(l: Lib, a: Reader, b: Reader, row: Row)
    ensures (forall c | ValidCondition(c) ::
              SightMatches(l, c, SeeRow(l, a, row)) <==> SightMatches(l, c, SeeRow(l, b, row)))
       <==> RowReadAlike(l, a, b, row)
  {
    hide JsonSight, ReadAlike;
    if RowReadAlike(l, a, b, row) {
      forall c | ValidCondition(c)
        ensures SightMatches(l, c, SeeRow(l, a, row)) <==> SightMatches(l, c, SeeRow(l, b, row))
      {
        AlikeVerdict(l, a, b, c, row);
      }
    } else {
      var k :| k in row.value && ValidKey(k) && !ReadAlike(l, a, b, row.value[k]);
      var c := Tell(l, a, b, row.value[k], k);
      assert SightMatches(l, c, SeeRow(l, a, row)) == SightHolds(l, c, JsonSight(l, a, row.value[k]));
      assert SightMatches(l, c, SeeRow(l, b, row)) == SightHolds(l, c, JsonSight(l, b, row.value[k]));
    }
  }

  /** A database and Go agree on every valid condition over a stored document exactly when its numbers are float64s to
      the database: encoding/json writes an int64 above 2^53 in full, the evaluator reads it back rounded. */
  lemma SqlSeesWhatGoSees(l: Lib, r: Reader, meta: Metadata)
    ensures (forall c | ValidCondition(c) ::
              SightMatches(l, c, SeeRow(l, r, Store(l, meta))) <==> ConditionMatches(l, c, Load(l, Store(l, meta))))
       <==> Exact(l, r, Store(l, meta))
  {
    hide SightMatches, ConditionMatches, Store, Load, See, SeeRow, Exact;
    var row := Store(l, meta);
    forall c ensures ConditionMatches(l, c, Load(l, row)) <==> SightMatches(l, c, SeeRow(l, GoReader, row)) {
      MatchesBySight(l, c, Load(l, row));
      GoReadsTheRow(l, meta);
    }
    ReadersAgree(l, r, GoReader, row);
    ExactIsAlike(l, r, row);
  }

  // ---- a number on which readers differ ----

  /** A stored number, and the equality with itself. */
  function SelfTest(k: string, x: real): Filter { [Condition(k, Eq, Plain(Number(x)))] }

  /** The equality holds for a reader exactly when the number is its float64 to that reader. */
  lemma SelfTestSeen(l: Lib, r: Reader, k: string, x: real)
    requires ValidKey(k)
    ensures Valid(SelfTest(k, x)) && Store(l, map[k := Number(x)]) == Some(map[k := JNum(x)])
    ensures (forall c | c in SelfTest(k, x) :: SightMatches(l, c, SeeRow(l, r, Some(map[k := JNum(x)]))))
      <==> Side(l, r, x) == 0
  {
    hide Side;
    var c, row := Condition(k, Eq, Plain(Number(x))), SeeRow(l, r, Some(map[k := JNum(x)]));
    assert row[k] == JsonSight(l, r, JNum(x));
    assert KindOf(l, Number(x)) == NumKind(l.round(x), 0);
    assert SightMatches(l, c, row) <==> SameKind(JsonKind(l, r, JNum(x)), NumKind(l.round(x), 0));
    assert c in SelfTest(k, x);
    assert Store(l, map[k := Number(x)]).value == map[k := JNum(x)];
  }

  lemma SelfTestInGo(l: Lib, k: string, x: real)
    requires ValidKey(k)
    ensures Matches(l, SelfTest(k, x), Load(l, Store(l, map[k := Number(x)])))
  {
    hide Load;
    SelfTestSeen(l, GoReader, k, x);
    GoReadsTheRow(l, map[k := Number(x)]);
    MatchesBySight(l, SelfTest(k, x)[0], Load(l, Store(l, map[k := Number(x)])));
  }

  /** A lawful library whose float64s hold 2^53 and not 2^53 + 1. */
  ghost function Coarse(): (l: Library)
    ensures Lawful(l) && l.round(9007199254740993.0) == l.decimal(9007199254740992.0) == 9007199254740992.0
  {
    Library(s => None, t => "", x => if 9007199254740992.0 <= x < 9007199254740994.0 then 9007199254740992.0 else x,
            x => x, d => "")
  }

  // ---- the rules of a comparison, told from the values as written ----

  /** How a text or a time reads: a date by its canonical spelling, other text as it stands. */
  function Spelled(l: Lib, v: Value): string
    requires v.Text? || v.Time?
  {
    match v
    case Time(t) => l.formatTime(t)
    case Text(s) => if l.parseTime(s).Some? then l.formatTime(l.parseTime(s).value) else s
  }

  /** One comparison of the value a under key k. */
  predicate Holds(l: Lib, op: FilterOp, k: string, a: Value, b: Value) {
    Matches(l, [Condition(k, op, Plain(b))], map[k := a])
  }

  /** -1, 0 or 1, for the signs a comparison can have. */
  predicate Ordered(l: Lib, k: string, a: Value, b: Value, sign: int) {
    && (Holds(l, Eq, k, a, b) <==> sign == 0) && (Holds(l, Ne, k, a, b) <==> sign != 0)
    && (Holds(l, Gt, k, a, b) <==> sign > 0) && (Holds(l, Gte, k, a, b) <==> sign >= 0)
    && (Holds(l, Lt, k, a, b) <==> sign < 0) && (Holds(l, Lte, k, a, b) <==> sign <= 0)
  }

  /** Equality is as given, and no order holds. */
  predicate Unordered(l: Lib, k: string, a: Value, b: Value, same: bool) {
    && (Holds(l, Eq, k, a, b) <==> same) && (Holds(l, Ne, k, a, b) <==> !same)
    && !Holds(l, Gt, k, a, b) && !Holds(l, Gte, k, a, b) && !Holds(l, Lt, k, a, b) && !Holds(l, Lte, k, a, b)
  }

  lemma OneCondition(l: Lib, op: FilterOp, k: string, a: Value, b: Value)
    ensures Holds(l, op, k, a, b) <==> ConditionMatches(l, Condition(k, op, Plain(b)), map[k := a])
  {
    assert Condition(k, op, Plain(b)) in [Condition(k, op, Plain(b))];
  }

  lemma HoldsAsCompared(l: Lib, k: string, a: Value, b: Value)
    ensures Holds(l, Eq, k, a, b) <==> Equal(l, a, b)
    ensures Holds(l, Ne, k, a, b) <==> !Equal(l, a, b)
    ensures var cmp := CompareValues(l, a, b);
      forall op | op == Gt || op == Gte || op == Lt || op == Lte ::
        Holds(l, op, k, a, b) <==> cmp.Some? && OrderHolds(op, cmp.value)
  {
    hide Equal, CompareValues;
    forall op { OneCondition(l, op, k, a, b); }
    hide Holds;
  }

  /** A date written in any zone, as a time or as text, compares as the instant it is; other text compares as text. */
  lemma TextsCompareAsSpelled(l: Lib, k: string, a: Value, b: Value)
    requires (a.Text? || a.Time?) && (b.Text? || b.Time?)
    ensures Ordered(l, k, a, b, Compare(Spelled(l, a), Spelled(l, b)))
  {
    hide Holds;
    CompareZero(Spelled(l, a), Spelled(l, b));
    HoldsAsCompared(l, k, a, b);
  }

  /** One instant in two spellings is one date, and text that is no date equals only itself. */
  lemma DatesAreInstants(l: Lib, k: string, s: string, u: string, t: int)
    ensures l.parseTime(s).Some? && l.parseTime(u).Some? ==>
      (Holds(l, Eq, k, Text(s), Text(u)) <==> l.formatTime(l.parseTime(s).value) == l.formatTime(l.parseTime(u).value))
    ensures l.parseTime(s).Some? ==>
      (Holds(l, Eq, k, Text(s), Time(t)) <==> l.formatTime(l.parseTime(s).value) == l.formatTime(t))
    ensures l.parseTime(s).Some? ==>
      (Holds(l, Eq, k, Time(t), Text(s)) <==> l.formatTime(l.parseTime(s).value) == l.formatTime(t))
    ensures l.parseTime(s).None? && l.parseTime(u).None? ==> (Holds(l, Eq, k, Text(s), Text(u)) <==> s == u)
  {
    TextsCompareAsSpelled(l, k, Text(s), Text(u));
    TextsCompareAsSpelled(l, k, Text(s), Time(t));
    TextsCompareAsSpelled(l, k, Time(t), Text(s));
    CompareZero(Spelled(l, Text(s)), Spelled(l, Text(u)));
    CompareZero(Spelled(l, Text(s)), Spelled(l, Time(t)));
    CompareZero(Spelled(l, Time(t)), Spelled(l, Text(s)));
    hide Holds;
  }

  /** Numbers compare as float64s, whatever their types; booleans are equal or not; nothing else compares, a number with
      its text and null with null included. */
  lemma OtherValuesCompare(l: Lib, k: string, a: Value, b: Value)
    ensures a.Number? && b.Number? ==> Ordered(l, k, a, b, Sign(l.round(a.x) - l.round(b.x)))
    ensures a.Bool? && b.Bool? ==> Unordered(l, k, a, b, a.b == b.b)
    ensures !(a.Number? && b.Number?) && !(a.Bool? && b.Bool?) && !((a.Text? || a.Time?) && (b.Text? || b.Time?)) ==>
      Unordered(l, k, a, b, false)
  {
    hide Holds;
    HoldsAsCompared(l, k, a, b);
  }

  /** In is equality with some operand, Any that of some element with some operand; presence is a matter of the key. */
  lemma ListsCompareByElement(l: Lib, k: string, a: Value, es: seq<Value>, os: seq<Value>)
    ensures Holds(l, In, k, a, Slice(os)) <==> exists o | o in os :: Holds(l, Eq, k, a, o)
    ensures Holds(l, Any, k, Slice(es), Slice(os)) <==> exists e, o | e in es && o in os :: Holds(l, Eq, k, e, o)
    ensures Holds(l, Any, k, TypedSlice(es), Slice(os)) <==> exists e, o | e in es && o in os :: Holds(l, Eq, k, e, o)
    ensures Elements(a).None? ==> !Holds(l, Any, k, a, Slice(os))
    ensures forall b: bool :: Holds(l, Exists, k, a, Bool(b)) <==> b
  {
    hide Holds;
    InByElement(l, k, a, os);
    AnyByElement(l, k, Slice(es), os);
    AnyByElement(l, k, TypedSlice(es), os);
    AnyByElement(l, k, a, os);
    forall b: bool ensures Holds(l, Exists, k, a, Bool(b)) <==> b { OneCondition(l, Exists, k, a, Bool(b)); }
  }

  lemma InByElement(l: Lib, k: string, a: Value, os: seq<Value>)
    ensures Holds(l, In, k, a, Slice(os)) <==> exists o | o in os :: Holds(l, Eq, k, a, o)
  {
    hide Equal;
    OneCondition(l, In, k, a, Slice(os));
    hide Holds;
    forall o ensures Holds(l, Eq, k, a, o) <==> Equal(l, a, o) { HoldsAsCompared(l, k, a, o); }
  }

  lemma AnyByElement(l: Lib, k: string, a: Value, os: seq<Value>)
    ensures Holds(l, Any, k, a, Slice(os)) <==>
      Elements(a).Some? && exists e, o | e in Elements(a).value && o in os :: Holds(l, Eq, k, e, o)
  {
    hide Equal, Elements;
    OneCondition(l, Any, k, a, Slice(os));
    assert ToSlice(Plain(Slice(os))) == os;
    assert map[k := a][k] == a;
    hide Holds;
    forall e, o ensures Holds(l, Eq, k, e, o) <==> Equal(l, e, o) { HoldsAsCompared(l, k, e, o); }
    if Elements(a).Some? {
      var es := Elements(a).value;
      if e, o :| e in es && o in os && Holds(l, Eq, k, e, o) {
        assert exists o | o in os :: exists e | e in es :: Equal(l, e, o);
      }
      if o :| o in os && exists e | e in es :: Equal(l, e, o) {
        var e :| e in es && Equal(l, e, o);
        assert Holds(l, Eq, k, e, o);
      }
    }
  }

  /** A document without the key satisfies its absence, and an alternative that it satisfies, and nothing else. */
  lemma MissingKeySatisfiesAbsence(l: Lib, c: Condition, meta: Metadata)
    requires c.op != Or && c.key !in meta
    ensures ConditionMatches(l, c, meta) <==> c.op == Exists && c.operand == Plain(Bool(false))
  {
  }

  /** What is stored of a text or a time is its spelling, alone and in a list. */
  lemma StoredAsSpelled(l: Lib, k: string, v: Value)
    requires v.Text? || v.Time?
    ensures Store(l, map[k := v]) == Some(map[k := JText(Spelled(l, v))])
    ensures Store(l, map[k := Slice([v])]) == Some(map[k := JArr([JText(Spelled(l, v))])])
  {
    assert Store(l, map[k := v]).value == map[k := JText(Spelled(l, v))];
    var j := ToJson(l, NormEntry(l, Slice([v])));
    assert j.elems == [JText(Spelled(l, v))];
    assert Store(l, map[k := Slice([v])]).value == map[k := j];
  }

  lemma OrMatches(l: Lib, k: string, cs: seq<Condition>, meta: Metadata)
    ensures ConditionMatches(l, Condition(k, Or, Conditions(cs)), meta) <==>
      exists c | c in cs :: ConditionMatches(l, c, meta)
  {
    assert Alternatives(Condition(k, Or, Conditions(cs))) == cs;
  }

  lemma OrConcat(l: Lib, k: string, f: seq<Condition>, g: seq<Condition>, meta: Metadata)
    ensures ConditionMatches(l, Condition(k, Or, Conditions(f + g)), meta) <==>
      ConditionMatches(l, Condition(k, Or, Conditions(f)), meta)
      || ConditionMatches(l, Condition(k, Or, Conditions(g)), meta)
  {
    OrMatches(l, k, f, meta);
    OrMatches(l, k, g, meta);
    OrMatches(l, k, f + g, meta);
    hide ConditionMatches;
    assert forall c :: c in f + g <==> c in f || c in g;
  }

  /** Conditions are joined by and, at the top and nowhere else; those of an Or are alternatives, at any depth; an Or of
      anything but conditions, and an operator nobody declared, select nothing. */
  lemma FiltersCombine(l: Lib, f: Filter, g: Filter, k: string, o: Operand, name: string, meta: Metadata)
    ensures Matches(l, f + g, meta) <==> Matches(l, f, meta) && Matches(l, g, meta)
    ensures var inner := Condition(k, Or, Conditions(f));
      && (ConditionMatches(l, inner, meta) <==> exists c | c in f :: ConditionMatches(l, c, meta))
      && (ConditionMatches(l, Condition(k, Or, Conditions([inner] + g)), meta) <==>
          ConditionMatches(l, Condition(k, Or, Conditions(f + g)), meta))
    ensures o.Plain? ==> !ConditionMatches(l, Condition(k, Or, o), meta)
    ensures !ConditionMatches(l, Condition(k, Undeclared(name), o), meta)
  {
    NothingSelected(l, k, o, name, meta);
    OrMatches(l, k, f, meta);
    OrFlattens(l, k, f, g, meta);
    hide ConditionMatches;
    assert forall c :: c in f + g <==> c in f || c in g;
  }

  lemma OrFlattens(l: Lib, k: string, f: seq<Condition>, g: seq<Condition>, meta: Metadata)
    ensures var inner := Condition(k, Or, Conditions(f));
      ConditionMatches(l, Condition(k, Or, Conditions([inner] + g)), meta) <==>
      ConditionMatches(l, Condition(k, Or, Conditions(f + g)), meta)
  {
    hide ConditionMatches;
    var inner := Condition(k, Or, Conditions(f));
    OrMatches(l, k, [inner], meta);
    assert inner in [inner];
    OrConcat(l, k, [inner], g, meta);
    OrConcat(l, k, f, g, meta);
  }

  lemma NothingSelected(l: Lib, k: string, o: Operand, name: string, meta: Metadata)
    ensures o.Plain? ==> !ConditionMatches(l, Condition(k, Or, o), meta)
    ensures !ConditionMatches(l, Condition(k, Undeclared(name), o), meta)
  {
    assert o.Plain? ==> Alternatives(Condition(k, Or, o)) == [];
  }
}
