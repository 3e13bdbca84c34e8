/** The `Inventory` class: one connection to the `inventory` table, seen as
    a map from id to row plus SQLite's AUTOINCREMENT counter. Every method
    is one committed statement, so one atomic change of that state. */
module Store {
  import opened Schema
  import Listing

  /** What the table and its `sqlite_sequence` entry always satisfy: every id
      was handed out by AUTOINCREMENT (so lies in 1..lastId), every row passes
      the CHECK constraints, and stored integers are 64-bit. */
  predicate Consistent(rows: map<int, Row>, lastId: int) {
    && 0 <= lastId <= MaxRowId
    && forall id :: id in rows ==>
         && 1 <= id <= lastId
         && Checks(rows[id])
         && BindsAmount(rows[id].amount)
  }

  class Inventory {
    /** The rows of `inventory`, keyed by id. */
    var rows: map<int, Row>
    /** The `sqlite_sequence` value of `inventory`: the largest id ever
        assigned, 0 before the first insert. It never decreases. */
    var lastId: int

    ghost predicate Valid()
      reads this
    {
      Consistent(rows, lastId)
    }

    /** Connecting to the database file and running `init_table`. A new file
        gets an empty table (`persisted` is `map[]` and `sequence` is 0); an
        existing one keeps its rows, since the table already exists. */
    constructor (persisted: map<int, Row>, sequence: int)
      requires Consistent(persisted, sequence)
      ensures Valid()
      ensures rows == persisted && lastId == sequence
    {
      rows := persisted;
      lastId := sequence;
    }

    /** `SELECT COUNT(id) FROM inventory`. */
    function RowCount(): (n: nat)
      reads this
      ensures n == |Ids()|
    {
      |rows|
    }

    /** `SELECT id FROM inventory ORDER BY id`. */
    function Ids(): (ids: seq<int>)
      reads this
      ensures Listing.Increasing(ids)
      ensures forall id :: id in ids <==> id in rows
      ensures |ids| == |rows|
      ensures Valid() ==> forall id :: id in ids <==> GetName(id).Ok?
    {
      Listing.SortedIds(rows.Keys)
    }

    /** `SELECT id, name FROM inventory ORDER BY id`: position i holds the
        item at position i of `Ids()`, which is what the delete dialog of the
        GUI relies on when it maps a selected pair back to an id. */
    function IdNamePairs(): (pairs: seq<(int, string)>)
      reads this
      ensures |pairs| == |Ids()|
      ensures forall i :: 0 <= i < |pairs| ==>
                pairs[i].0 == Ids()[i] && pairs[i].0 in rows && pairs[i].1 == rows[pairs[i].0].name
    {
      var ids := Ids();
      var table := rows;
      seq(|ids|, i requires 0 <= i < |ids| => (ids[i], table[ids[i]].name))
    }

    /** The lookup the getters share, `SELECT <column> FROM inventory WHERE
        id = :id` and then `fetchone()[0]`: binding `id` overflows outside
        64 bits, and subscripting the `None` that `fetchone()` gives for a
        missing row raises. */
    function Fetch(id: int): (r: Result<Row>)
      reads this
      ensures r.Ok? <==> InInt64(id) && id in rows
      ensures r.Ok? ==> r.value == rows[id]
      ensures r.Err? ==> r.error == if InInt64(id) then NoSuchRow else OutOfRange
    {
      if !InInt64(id) then Err(OutOfRange)
      else if id !in rows then Err(NoSuchRow)
      else Ok(rows[id])
    }

    /** `get_name_from_id`. */
    function GetName(id: int): (r: Result<string>)
      reads this
      ensures r.Ok? <==> InInt64(id) && id in rows
      ensures r.Ok? ==> r.value == rows[id].name
      ensures Valid() && r.Ok? ==> r.value != ""
      ensures r.Err? ==> r.error == Fetch(id).error
    {
      match Fetch(id)
      case Ok(row) => Ok(row.name)
      case Err(e) => Err(e)
    }

    /** `get_price_from_id`: `Ok(None)` is a stored NULL. */
    function GetPrice(id: int): (r: Result<Option<real>>)
      reads this
      ensures r.Ok? <==> InInt64(id) && id in rows
      ensures r.Ok? ==> r.value == rows[id].price
      ensures r.Err? ==> r.error == Fetch(id).error
    {
      match Fetch(id)
      case Ok(row) => Ok(row.price)
      case Err(e) => Err(e)
    }

    /** `get_amount_from_id`: `Ok(None)` is a stored NULL. */
    function GetAmount(id: int): (r: Result<Option<int>>)
      reads this
      ensures r.Ok? <==> InInt64(id) && id in rows
      ensures r.Ok? ==> r.value == rows[id].amount
      ensures r.Err? ==> r.error == Fetch(id).error
    {
      match Fetch(id)
      case Ok(row) => Ok(row.amount)
      case Err(e) => Err(e)
    }

    /** The read and the assertion of `change_amount`: the amount the update
        would store, or why the call raises before writing anything. */
    function NewAmount(id: int, delta: int): (r: Result<int>)
      reads this
      ensures r.Ok? <==>
                && InInt64(id) && id in rows && rows[id].amount.Some?
                && 0 <= rows[id].amount.value + delta <= MaxInt64
      ensures r.Ok? ==> r.value == rows[id].amount.value + delta
      ensures r.Err? && InInt64(id) && id in rows ==>
                r.error == (if rows[id].amount.None? then NullAmount
                            else if rows[id].amount.value + delta < 0 then NegativeAmount
                            else OutOfRange)
      ensures r.Err? && !(InInt64(id) && id in rows) ==> r.error == Fetch(id).error
    {
      match GetAmount(id)
      case Err(e) => Err(e)
      case Ok(None) => Err(NullAmount)
      case Ok(Some(current)) =>
        var updated := current + delta;
        if updated < 0 then Err(NegativeAmount)
        else if updated > MaxInt64 then Err(OutOfRange)
        else Ok(updated)
    }

    /** `new_item`: `INSERT INTO inventory (name, price, amount) VALUES (...)`
        and `lastrowid`. The amount is bound explicitly, so an omitted amount
        is stored as NULL and the column's `DEFAULT 0` never applies. */
    method NewItem(name: string, price: Option<real>, amount: Option<int> := None)
      returns (r: Result<int>)
      requires Valid()
      modifies this
      ensures Valid()
      ensures r.Ok? <==> BindsAmount(amount) && old(lastId) < MaxRowId && Checks(Row(name, amount, price))
      ensures r.Err? ==> rows == old(rows) && lastId == old(lastId)
      ensures r.Err? ==> r.error == (if !BindsAmount(amount) then OutOfRange
                                     else if old(lastId) == MaxRowId then Full
                                     else Constraint)
      // AUTOINCREMENT: the new id exceeds every id ever assigned, deleted or not.
      ensures r.Ok? ==> r.value == old(lastId) + 1 && lastId == r.value
      ensures r.Ok? ==> r.value !in old(rows) && forall id :: id in old(rows) ==> id < r.value
      ensures r.Ok? ==> rows == old(rows)[r.value := Row(name, amount, price)]
      ensures r.Ok? ==> GetName(r.value) == Ok(name) && GetPrice(r.value) == Ok(price)
                        && GetAmount(r.value) == Ok(amount)
    {
      if !BindsAmount(amount) {
        return Err(OutOfRange);
      }
      if lastId == MaxRowId {
        return Err(Full);
      }
      var row := Row(name, amount, price);
      if !Checks(row) {
        return Err(Constraint);
      }
      lastId := lastId + 1;
      rows := rows[lastId := row];
      r := Ok(lastId);
    }

    /** `UPDATE inventory SET ... WHERE id = :id` once `id` has matched a row:
        SQLite checks the new row against the CHECK constraints and either
        stores it or aborts the statement, leaving the table as it was. */
    method Replace(id: int, row: Row) returns (s: Status)
      requires Valid() && id in rows && BindsAmount(row.amount)
      modifies this
      ensures Valid() && lastId == old(lastId)
      ensures s == if Checks(row) then Success else Failure(Constraint)
      ensures rows == if Checks(row) then old(rows)[id := row] else old(rows)
    {
      if Checks(row) {
        rows := rows[id := row];
        s := Success;
      } else {
        s := Failure(Constraint);
      }
    }

    /** `set_name`. An id that matches no row updates nothing, and then no
        constraint is evaluated either. */
    method SetName(id: int, name: string) returns (s: Status)
      requires Valid()
      modifies this
      ensures Valid() && lastId == old(lastId)
      ensures s == if !InInt64(id) then Failure(OutOfRange)
                   else if id in old(rows) && !NameCheck(name) then Failure(Constraint)
                   else Success
      ensures s.Success? && id in old(rows) ==> rows == old(rows)[id := old(rows[id]).(name := name)]
      ensures s.Failure? || id !in old(rows) ==> rows == old(rows)
    {
      if !InInt64(id) {
        return Failure(OutOfRange);
      }
      if id !in rows {
        return Success;
      }
      s := Replace(id, rows[id].(name := name));
    }

    /** `set_price`. */
    method SetPrice(id: int, price: Option<real>) returns (s: Status)
      requires Valid()
      modifies this
      ensures Valid() && lastId == old(lastId)
      ensures s == if !InInt64(id) then Failure(OutOfRange)
                   else if id in old(rows) && !PriceCheck(price) then Failure(Constraint)
                   else Success
      ensures s.Success? && id in old(rows) ==> rows == old(rows)[id := old(rows[id]).(price := price)]
      ensures s.Failure? || id !in old(rows) ==> rows == old(rows)
    {
      if !InInt64(id) {
        return Failure(OutOfRange);
      }
      if id !in rows {
        return Success;
      }
      s := Replace(id, rows[id].(price := price));
    }

    /** `set_amount`. Both bound integers must fit in 64 bits. */
    method SetAmount(id: int, amount: Option<int>) returns (s: Status)
      requires Valid()
      modifies this
      ensures Valid() && lastId == old(lastId)
      ensures s == if !InInt64(id) || !BindsAmount(amount) then Failure(OutOfRange)
                   else if id in old(rows) && !AmountCheck(amount) then Failure(Constraint)
                   else Success
      ensures s.Success? && id in old(rows) ==> rows == old(rows)[id := old(rows[id]).(amount := amount)]
      ensures s.Failure? || id !in old(rows) ==> rows == old(rows)
    {
      if !InInt64(id) || !BindsAmount(amount) {
        return Failure(OutOfRange);
      }
      if id !in rows {
        return Success;
      }
      s := Replace(id, rows[id].(amount := amount));
    }

    /** `modify_item`: name and price in one statement, so both are written
        or neither is. */
    method ModifyItem(id: int, name: string, price: Option<real>) returns (s: Status)
      requires Valid()
      modifies this
      ensures Valid() && lastId == old(lastId)
      ensures s == if !InInt64(id) then Failure(OutOfRange)
                   else if id in old(rows) && !(NameCheck(name) && PriceCheck(price)) then Failure(Constraint)
                   else Success
      ensures s.Success? && id in old(rows) ==>
                rows == old(rows)[id := old(rows[id]).(name := name, price := price)]
      ensures s.Failure? || id !in old(rows) ==> rows == old(rows)
    {
      if !InInt64(id) {
        return Failure(OutOfRange);
      }
      if id !in rows {
        return Success;
      }
      s := Replace(id, rows[id].(name := name, price := price));
    }

    /** `change_amount`: read the amount, add `delta`, assert the sum is not
        negative, then write it. Every failure is raised before the write. */
    method ChangeAmount(id: int, delta: int) returns (s: Status)
      requires Valid()
      modifies this
      ensures Valid() && lastId == old(lastId)
      ensures s.Success? <==> old(NewAmount(id, delta)).Ok?
      ensures s.Failure? ==> s.error == old(NewAmount(id, delta)).error && rows == old(rows)
      ensures s.Success? ==>
                rows == old(rows)[id := old(rows[id]).(amount := Some(old(NewAmount(id, delta)).value))]
      ensures s.Success? ==> GetAmount(id) == Ok(Some(old(rows[id].amount.value) + delta))
    {
      var updated := NewAmount(id, delta);
      if updated.Err? {
        return Failure(updated.error);
      }
      rows := rows[id := rows[id].(amount := Some(updated.value))];
      s := Success;
    }

    /** `buy_item`: `change_amount(id, n)`. */
    method BuyItem(id: int, n: int) returns (s: Status)
      requires Valid()
      modifies this
      ensures Valid() && lastId == old(lastId)
      ensures s.Success? <==> old(NewAmount(id, n)).Ok?
      ensures s.Failure? ==> s.error == old(NewAmount(id, n)).error && rows == old(rows)
      ensures s.Success? ==> rows == old(rows)[id := old(rows[id]).(amount := Some(old(rows[id].amount.value) + n))]
    {
      s := ChangeAmount(id, n);
    }

    /** `sell_item`: `change_amount(id, -n)`; selling more than is in stock
        fails and changes nothing. */
    method SellItem(id: int, n: int) returns (s: Status)
      requires Valid()
      modifies this
      ensures Valid() && lastId == old(lastId)
      ensures s.Success? <==> old(NewAmount(id, -n)).Ok?
      ensures s.Failure? ==> s.error == old(NewAmount(id, -n)).error && rows == old(rows)
      ensures s.Success? ==> rows == old(rows)[id := old(rows[id]).(amount := Some(old(rows[id].amount.value) - n))]
    {
      s := ChangeAmount(id, -n);
    }

    /** `delete`: `DELETE FROM inventory WHERE id = :id`. Deleting an absent
        id deletes nothing and raises nothing, so a second delete of the same
        id is a no-op. The AUTOINCREMENT counter is untouched. */
    method Delete(id: int) returns (s: Status)
      requires Valid()
      modifies this
      ensures Valid() && lastId == old(lastId)
      ensures s == if InInt64(id) then Success else Failure(OutOfRange)
      ensures s.Success? ==> rows == old(rows) - {id} && id !in rows
      ensures s.Failure? || id !in old(rows) ==> rows == old(rows)
    {
      if !InInt64(id) {
        return Failure(OutOfRange);
      }
      rows := rows - {id};
      s := Success;
    }
  }
}
