# Inventory store: a Dafny model

This project models the data-access class `Inventory` of a small desktop inventory manager (`main.py`). That class owns one SQLite connection and one table:

    inventory(id INTEGER PRIMARY KEY AUTOINCREMENT, name, amount, price)

The table has three CHECK constraints: the name is not empty, the amount is not negative, and the price is not negative. Each write runs one parameterised statement and commits it; the reads run one SELECT and commit nothing. `change_amount` first reads the amount with a SELECT and asserts on it, then updates. The model folds that read and write into one transition, which is sound because one owner holds the connection. In the model, the table is an abstract store:

- `rows: map<int, Row>` maps each id to its `Row(name, amount, price)`. NULL is `None`. The price is an abstract `real`.
- `lastId` is the table's `sqlite_sequence` entry: the largest id AUTOINCREMENT has ever handed out.
- Every method is one atomic transition of that state. A statement that raises leaves the state exactly as it was.

Files:

- `schema.dfy` (`Schema`) — the row type, one error constructor per cause of failure, the 64-bit binding range, and the CHECK constraints. A condition over NULL passes, as in SQL.
- `listing.dfy` (`Listing`) — `ORDER BY id` as the ascending enumeration of a finite set of ids, and the proof that this enumeration is unique.
- `store.dfy` (`Store`) — the class `Inventory`:
  - the invariant `Consistent`: ids lie in `1..lastId`, rows pass the CHECKs, stored integers are 64-bit;
  - the queries, as functions over the map;
  - the writes, as methods whose `ensures` give the whole new state and the error raised.
- `command.dfy` (`Command`) — `clean_command` as a loop over the lines, proved against a specification built from `str.splitlines` and `str.strip`. Both use Python's own sets of line-boundary and whitespace characters.
- `session.dfy` (`Session`) — client methods that replay small sessions. Their assertions follow from the class's contracts alone: create, adjust, oversell, refuse, delete twice, and the fresh id after a delete.

SQLite behaviour the model states explicitly:

- **AUTOINCREMENT.** A new id is `lastId + 1`. Deleting never lowers `lastId`, so an id is never reused. Once the largest rowid (2^63 - 1) has been used, an insert fails with SQLITE_FULL (`Full`).
- **Explicit NULL.** `new_item` binds `amount` explicitly, and its Python default is `None`. An omitted amount is therefore stored as NULL; the column's `DEFAULT 0` never applies.
- **Unmatched UPDATE.** An UPDATE whose id matches no row changes nothing and evaluates no constraint. So `set_name(missing_id, "")` succeeds silently.
- **64-bit binding.** sqlite3 raises `OverflowError` when an int it binds does not fit in 64 bits (`OutOfRange`). This applies to ids, amounts and the sum computed by `change_amount`.
- **Failures in `change_amount`.** A missing row makes `fetchone()[0]` raise (`NoSuchRow`). A NULL amount makes `None + int` raise (`NullAmount`). A negative sum fails the `assert` (`NegativeAmount`). All three happen before the UPDATE.

## Model

| member | source | states |
|---|---|---|
| `Schema.Checks` | main.py:55-57 | a row passes iff its name is not empty and its amount and price are each NULL or >= 0; a CHECK over NULL passes |
| `Store.Consistent` | main.py:50-58 | every stored id lies in 1..lastId (handed out by AUTOINCREMENT), every row passes `Checks`, every stored amount fits in 64 bits, and lastId is at most the largest rowid |
| `Store.Inventory.constructor` | main.py:11-18 | opening the file and `init_table` give a valid store holding the persisted rows and counter (empty for a new file) |
| `Store.Inventory.RowCount` | main.py:24-27 | the row count equals the length of the id listing |
| `Store.Inventory.Ids` | main.py:29-31 | the ids are strictly ascending, are exactly the table's keys, and are exactly the ids for which `GetName` succeeds |
| `Store.Inventory.IdNamePairs` | main.py:66-68 | the pairs are as long as `Ids()`, and pair i holds id `Ids()[i]` with that row's name |
| `Store.Inventory.Fetch` | main.py:33-35 | a lookup succeeds iff the id fits in 64 bits and is present; otherwise it fails with overflow or with no such row |
| `Store.Inventory.GetName` | main.py:33-35 | returns the stored name exactly when the row exists (never empty in a valid store), otherwise the lookup's error |
| `Store.Inventory.GetPrice` | main.py:37-39 | returns the stored price, NULL included, exactly when the row exists, otherwise the lookup's error |
| `Store.Inventory.GetAmount` | main.py:41-43 | returns the stored amount, NULL included, exactly when the row exists, otherwise the lookup's error |
| `Store.Inventory.NewAmount` | main.py:160-171 | the adjusted amount is defined iff the row exists, its amount is not NULL, and old + delta lies in 0..2^63-1; it equals old + delta; otherwise the error that is raised before any write |
| `Store.Inventory.NewItem` | main.py:101-106 | succeeds iff the amount binds, the counter is below the largest rowid, and the row passes the CHECKs; returns `old lastId + 1`, which is larger than every present id; adds exactly that row; the getters then return exactly the given name, price and amount (NULL amount when omitted); on failure, state unchanged |
| `Store.Inventory.Replace` | main.py:50-58 | an UPDATE of an existing row stores the new row iff it passes the CHECK constraints, and otherwise raises and leaves the table unchanged |
| `Store.Inventory.SetName` | main.py:143-146 | only the name of that row changes; an empty name on an existing row is refused with the table unchanged; a missing id is a silent no-op |
| `Store.Inventory.SetPrice` | main.py:137-141 | only the price of that row changes; a negative price on an existing row is refused with the table unchanged; NULL is accepted; a missing id is a silent no-op |
| `Store.Inventory.SetAmount` | main.py:148-152 | only the amount of that row changes; a negative amount on an existing row is refused with the table unchanged; NULL is accepted; a missing id is a silent no-op |
| `Store.Inventory.ModifyItem` | main.py:130-135 | name and price of that row change together or not at all; other rows and the amount are unchanged |
| `Store.Inventory.ChangeAmount` | main.py:160-171 | succeeds iff `NewAmount` is defined, and then sets only that row's amount to old + delta; on failure the table is unchanged and the error is `NewAmount`'s; the counter never moves |
| `Store.Inventory.BuyItem` | main.py:157-158 | is `ChangeAmount(id, n)`: amount becomes old + n, or nothing changes |
| `Store.Inventory.SellItem` | main.py:154-155 | is `ChangeAmount(id, -n)`: amount becomes old - n, or, when that is negative, the call fails and nothing changes |
| `Store.Inventory.Delete` | main.py:186-188 | removes exactly that id, leaves every other row and the counter unchanged, and is a no-op on an absent id (so idempotent) |
| `Listing.Least` | main.py:30 | the least element of a non-empty set of ids |
| `Listing.SortedIds` | main.py:30 | `ORDER BY id`: strictly ascending, with the same elements as the key set and the same size |
| `Listing.IncreasingUnique` | main.py:30 | two strictly ascending sequences with the same elements are equal, so the listing is determined by the keys |
| `Command.LineEnd` | main.py:93 | the end of the first line: no boundary before it, and a boundary at it unless the text ends there |
| `Command.SplitLines` | main.py:93 | `splitlines`: no line contains a boundary character, and the result is empty iff the text is |
| `Command.SplitTerminated` | main.py:93 | splitting a text in which every line ends with a newline gives back exactly those lines |
| `Command.SplitUnterminated` | main.py:93 | splitting newline-terminated lines followed by a non-empty unterminated last line gives back exactly those lines and then the last one |
| `Command.SkipSpace` | main.py:96 | the first index from a position on that holds no whitespace; everything skipped is whitespace |
| `Command.SkipSpaceBack` | main.py:96 | where the trailing whitespace of a slice begins; everything skipped is whitespace and the character before it is not |
| `Command.Strip` | main.py:96 | `strip()`: the result is a slice of the line starting at its first non-whitespace character; everything cut on either side is whitespace; the result neither starts nor ends with whitespace |
| `Command.StripNoBoundary` | main.py:96 | stripping a line that has no line boundary leaves none |
| `Command.Remove` | main.py:96 | `replace(c, "")`: the result has no occurrence of the character and only characters of the input; the input is unchanged when the character is absent; no line boundary is introduced |
| `Command.RemoveAppend` | main.py:96 | removal keeps order: removing from a concatenation is the concatenation of the removals |
| `Command.CleanLine` | main.py:96-98 | for a split line, the result is the stripped line, plus one " " when it ends in ","; it contains no line boundary |
| `Command.CleanedNoBoundary` | main.py:92-99 | concatenating cleaned split lines yields no line-boundary character |
| `Command.CleanCommand` | main.py:92-99 | the loop returns the concatenation of `CleanLine` over `splitlines(command)`; the result has no line boundary and no "\n"; empty input gives "" |

## Left out

- Connection, cursor, commit, close and the SQL trace callback (main.py:11-18, 62-90). These are library I/O. Each method is modelled as one committed, atomic transition of the abstract table. The constructor takes the persisted table as a parameter instead of reading `products.db`.
- A pre-existing table with a different schema. `CREATE TABLE IF NOT EXISTS` would keep it; the constructor instead requires the persisted state to satisfy the invariant.
- `execute` logging and printing the affected-row count (main.py:70-82), and all logging elsewhere. These are output only.
- `columncount` (main.py:20-22). It is a constant `4` used by the GUI.
- `query` (main.py:190-206). It runs arbitrary caller-supplied SQL, so there is nothing fixed to specify.
- `display_item`, `display_header`, `list_all` (main.py:114-128, 173-184). These are console formatting.
- `get_id_from_name` (main.py:108-112). It is a deprecated stub that always returns 0.
- `gui.py` and `__init__.py`. These are wxPython UI, log-file and directory setup.
- Floating-point price arithmetic. The price is an abstract real, and only its sign and its presence matter. NaN and infinities are not modelled; sqlite3 would bind a NaN as NULL.
- Arguments of the wrong Python type, and SQLite's type affinity. Examples: a `None` name (the NOT NULL constraint), a float amount, a string price. Names are always strings, amounts are optional integers, and prices are optional reals.
- `VARCHAR(30)`. SQLite does not enforce the length, so the model has none.
- Python run with `-O`. That would strip the `assert` in `change_amount`; the model assumes assertions are enabled.
- NewItem: when a 64-bit overflow, an exhausted AUTOINCREMENT counter and a CHECK failure coincide, the model reports them in that order. SQLite computes the new rowid before it checks the constraints.
