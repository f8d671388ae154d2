/** What PostgreSQL and SQLite have in common: three-valued logic, comparisons, and the stored metadata a query
    reads. */
module SqlValues {
  import opened Wrappers
  import opened Filters

  /** Only PostgreSQL has jsonb values. */
  datatype Sql = Null | Truth(b: bool) | Str(s: string) | Num(x: real) | Jsonb(j: Json)

  predicate IsTrue(v: Sql) { v == Truth(true) }

  function And3(vs: seq<Sql>): Sql {
    if Truth(false) in vs then Truth(false)
    else if forall v | v in vs :: IsTrue(v) then Truth(true)
    else Null
  }

  function Or3(vs: seq<Sql>): Sql {
    if Truth(true) in vs then Truth(true)
    else if forall v | v in vs :: v == Truth(false) then Truth(false)
    else Null
  }

  datatype CmpOp = IsEqual | IsAbove | IsAtLeast | IsBelow | IsAtMost

  predicate CmpHolds(op: CmpOp, c: int) {
    match op
    case IsEqual => c == 0
    case IsAbove => c > 0
    case IsAtLeast => c >= 0
    case IsBelow => c < 0
    case IsAtMost => c <= 0
  }

  function CmpOf(op: FilterOp): CmpOp {
    match op
    case Gt => IsAbove
    case Gte => IsAtLeast
    case Lt => IsBelow
    case _ => IsAtMost
  }

  /** The value stored under a key; a document without a row has none. */
  function At(row: Row, key: string): Option<Json> {
    if row.Some? && key in row.value then Some(row.value[key]) else None
  }
}
