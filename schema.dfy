/** The row type of the `inventory` table, the errors its operations raise and
    the CHECK constraints of its schema, with SQL's treatment of NULL. */
module Schema {

  datatype Option<+T> = None | Some(value: T)

  /** One row of `inventory`, without its id (the id is the key of the table).
      NULL is `None`. The price is an abstract real: only its sign and its
      presence matter to the model. */
  datatype Row = Row(name: string, amount: Option<int>, price: Option<real>)

  /** What the Python code raises, one constructor per cause. */
  datatype Error =
    | OutOfRange      // OverflowError: an int bound to a statement does not fit in 64 bits
    | Constraint      // sqlite3.IntegrityError: a CHECK constraint failed
    | Full            // sqlite3 SQLITE_FULL: AUTOINCREMENT has used the largest rowid
    | NoSuchRow       // TypeError: fetchone() gave None and was subscripted
    | NullAmount      // TypeError: None + int, the stored amount is NULL
    | NegativeAmount  // AssertionError: an adjustment would make the amount negative

  /** Outcome of a call that returns nothing in the source. */
  datatype Status = Success | Failure(error: Error)

  /** Outcome of a call that returns a value in the source. */
  datatype Result<+T> = Ok(value: T) | Err(error: Error)

  /** The signed 64-bit range that sqlite3 can bind an int into. */
  const MinInt64: int := -0x8000_0000_0000_0000
  const MaxInt64: int := 0x7FFF_FFFF_FFFF_FFFF

  /** The largest rowid SQLite hands out. */
  const MaxRowId: int := MaxInt64

  predicate InInt64(x: int) {
    MinInt64 <= x <= MaxInt64
  }

  /** Binding NULL never overflows. */
  predicate BindsAmount(a: Option<int>) {
    a.None? || InInt64(a.value)
  }

  /** A CHECK constraint is violated only when its condition is false; a
      condition over NULL is NULL, which passes. */
  predicate NameCheck(name: string) {
    name != ""
  }

  predicate AmountCheck(a: Option<int>) {
    a.None? || a.value >= 0
  }

  predicate PriceCheck(p: Option<real>) {
    p.None? || p.value >= 0.0
  }

  /** All three CHECK constraints of the table hold of the row. */
  predicate Checks(r: Row) {
    NameCheck(r.name) && AmountCheck(r.amount) && PriceCheck(r.price)
  }
}
