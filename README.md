# Kiosk product database: a Dafny model of `Database` and its import loop

The kiosk system keeps its products in an SQLite file. A Python
utility, the `Database` class of `test-script/python/db.py`, loads them.
Each product is a pair of rows:

- a `frozen_inventory` row, the inventory record;
- a `kiosk_product` row, the sellable product, which refers to the
  inventory record through `frozen_id`.

Three operations make up the model:

- `insert_product` writes both rows in one transaction.
- `update_product` builds a `SET` list from the keyword arguments that
  are not `None`, one list per table. It updates the parent by `id` and
  the children by `frozen_id`. Both updates commit or roll back together.
- `run()` reads a product file line by line. It skips blank lines, inserts
  every line with five or more comma-separated fields and reports the
  others as invalid.

This project models all three, and proves what each promises:
- all-or-nothing writes;
- "nothing else changes";
- the exact shape of the `SET` lists;
- the classification of lines.

The model is layered like the program:

- `schema.dfy` (`Schema`) defines the rows, the store and the connection
  state. The store is both tables (maps from `id` to row) plus their
  AUTOINCREMENT sequence values. The connection state is no connection,
  open, or closed. It also defines what a call returns or raises, and the
  names of the database calls that can fail.
- `set_list.dfy` (`SetList`) holds the two `SET`-list builders as pure
  functions from the optional fields to a list of (column, value)
  assignments. It also defines what executing such a list does to a row,
  and proves it equal to a reference "replace the supplied fields" update.
- `transactions.dfy` (`Transactions`) gives `insert_product` and
  `update_product` as functions of the connection state, the tables
  before the call, the arguments, and a fault oracle. The oracle names
  the one database call that fails, if any.
- `database.dfy` (`KioskDb`) is the `Database` class. It has a connection
  field and a tables field. Its methods change the tables step by step,
  roll back on a failing call, and are proved to end in the state the
  `Transactions` functions give.
- `importer.dfy` (`Importer`) holds Python's `strip()` and `split(',')`,
  the line classification, the import loop as a fold, and `run()` as a
  method whose loop is proved against that fold.

Connection states follow the code:
- A failed `sqlite3.connect` leaves `conn` as `None`. Both operations
  then return `(None, None)` or `False`.
- After `close()` the connection object is still truthy. The next
  `cursor()` call sits outside the `try`, so it raises
  `ProgrammingError`. The model returns `Raised(ProgrammingError)`.

AUTOINCREMENT is modelled as the per-table sequence value:
- The id handed out is the sequence value + 1.
- A rollback restores the sequence.
- `StoreValid` (no id above its sequence) is preserved by every
  operation.
- `Linked` (every child refers to an existing parent) is preserved too.

Exceptions that escape, as the code has them:

- `int()`/`float()` on a malformed field raises `ValueError` inside
  `run()` (db.py:226-228). Nothing catches it, so the rest of the file is
  never read and `close()` is never reached. The model returns
  `Crashed(ValueError)`, with the reports and tables as they were before
  that line. `AbortStopsReading` proves that no later line matters. Such
  a record is not skipped: the import does not go on with the next one.
- The sqlite3 module binds a Python int as SQLite's 64-bit INTEGER. A
  value outside that range makes `cursor.execute` raise `OverflowError`
  while it binds the parameters. `OverflowError` is not an
  `sqlite3.Error`, so the `except` clauses (db.py:113, db.py:193) do not
  catch it. Nothing is rolled back, and the error escapes `run()` as
  well.
  - `cursor.execute` compiles its statement before it binds the
    parameters. A statement that fails to compile (a missing table or
    column) raises `sqlite3.OperationalError` before any binding, and
    that is caught as usual. So a failing BEGIN, or the first statement
    failing to compile, returns `(None, None)` or False even when a value
    could not be bound.
  - In `insert_product`, the counts are bound first, by the parent
    INSERT (db.py:96).
  - In `update_product`, the first issued UPDATE binds every int that
    the second one binds (`OverflowAtFirstStatement`).
  - So nothing has been written when it is raised.
- `run()` closes the connection only after the whole file has been read
  (db.py:242). It stays open when the product file is missing or an
  exception escapes. `Run` returns the final connection state to show
  this. The connection is not released on every exit path.
- A connection that never opened makes both operations return their
  failure value. A closed one raises (see above).

## Model

| member | source | states |
|---|---|---|
| SetList.Emit | test-script/python/db.py:144-155 | one `if x is not None` block adds exactly one assignment when its argument is supplied and none otherwise; that assignment names the block's column and carries the supplied value |
| SetList.FrozenSetList | test-script/python/db.py:141-155 | the parent SET list is in the fixed column order with no column twice; it names only product_name, category, total_pieces and total_stocks; each entry binds the argument supplied for its column |
| SetList.KioskSetList | test-script/python/db.py:163-183 | the child SET list is ordered and binds the supplied arguments; it starts with exactly the parent's list, and only price and picture come after it |
| SetList.Parts | test-script/python/db.py:141-155 | `update_parts` holds one column name per assignment, in the same order |
| SetList.Params | test-script/python/db.py:157-159 | after the key is appended, `params` has one value per `?` of the SET list, in the same order, and the key last |
| SetList.FrozenSetListLookup | test-script/python/db.py:144-155 | the parent SET list gives each parent column exactly its supplied argument; price and picture get nothing |
| SetList.KioskSetListLookup | test-script/python/db.py:166-183 | the child SET list gives every column exactly its supplied argument, so a `None` argument never produces an assignment |
| SetList.FrozenSetListEmpty | test-script/python/db.py:141-157 | the parent SET list is empty exactly when none of the four parent columns is supplied |
| SetList.KioskSetListEmpty | test-script/python/db.py:163-185 | the child SET list is empty exactly when no field at all is supplied |
| SetList.AssignInventory | test-script/python/db.py:158 | one `column = ?` entry changes that parent column and no other column or flag |
| SetList.AssignKiosk | test-script/python/db.py:186 | one `column = ?` entry changes that child column; `frozen_id`, `total_pieces_used` and `exist` stay |
| SetList.ApplyInventory | test-script/python/db.py:158-160 | executing a SET list sets every parent column it names to its value there and keeps every other column and the flag |
| SetList.ApplyKiosk | test-script/python/db.py:186-188 | executing a SET list sets every child column it names; `frozen_id`, `total_pieces_used`, `exist` and unnamed columns keep their values |
| SetList.ApplyInventoryByLookup | test-script/python/db.py:158-160 | any SET list that gives each parent column its supplied value performs the reference update |
| SetList.ApplyKioskByLookup | test-script/python/db.py:186-188 | any SET list that gives each column its supplied value performs the reference update |
| SetList.FrozenSetListMeaning | test-script/python/db.py:141-160 | executing the parent SET list on a row replaces exactly the supplied fields (the reference `UpdatedInventory`) |
| SetList.KioskSetListMeaning | test-script/python/db.py:163-188 | executing the child SET list on a row replaces exactly the supplied fields (the reference `UpdatedKiosk`) |
| Transactions.Insert | test-script/python/db.py:67-117 | with no connection: `(None, None)` and unchanged tables. Closed connection: raises ProgrammingError. A failing BEGIN, or the parent INSERT failing to compile: `(None, None)` and unchanged tables. Otherwise, a count outside SQLite's 64-bit INTEGER range raises OverflowError with the tables unchanged. Any other failing call: `(None, None)` and unchanged tables. Otherwise both new ids are returned and the tables gain exactly the parent row (`exist` 1) and the child row (parent's id as `frozen_id`, the arguments, `total_pieces_used` 0, `exist` 1) |
| Transactions.InsertReturnsIds | test-script/python/db.py:80-117 | ids come back exactly when the connection is open, the counts can be bound and no call fails, and then both of them; a partial id pair is never returned |
| Transactions.InsertKeeps | test-script/python/db.py:87-117 | an insert keeps the AUTOINCREMENT bookkeeping and the parent links and removes no row; it adds one row to each table when ids are returned and none otherwise, so a state with only the parent row is never left behind |
| Transactions.InsertSucceeds | test-script/python/db.py:89-111 | a successful insert (counts within SQLite's INTEGER range) returns two positive, previously unused ids, and adds exactly the two rows they name. Every existing row is kept; the child names the parent, with `total_pieces_used` 0 and both flags 1 |
| Transactions.InsertTwiceMakesTwoPairs | test-script/python/db.py:92-107 | inserting the same product twice creates two distinct id pairs and two rows in each table (there is no uniqueness check) |
| Transactions.UpdatePlanShape | test-script/python/db.py:141-188 | at most one UPDATE per table, the parent one first. There are none when no field is supplied; the parent one exists exactly when a parent column is supplied. Each UPDATE carries the key and its table's non-empty SET list |
| Transactions.UpdatePlan | test-script/python/db.py:157-188 | the statements the two `if update_parts:` blocks execute, in order; `UpdatePlanShape` states their shape |
| Transactions.Execute | test-script/python/db.py:158-188 | the parent UPDATE (158-160) or the child UPDATE (186-188): one UPDATE adds and removes no row, keeps the sequences and never changes a child's `frozen_id` |
| Transactions.BindsParams | test-script/python/db.py:157-160 | a statement binds exactly when every value of `params`, the key appended, is a string, a BLOB, a float or an int within SQLite's INTEGER range |
| Transactions.ChildBindsAfterParent | test-script/python/db.py:163-188 | once the parent UPDATE's parameters are bound, the child UPDATE's can be too: it binds the same counts and key, plus the float price and the picture |
| Transactions.OverflowAtFirstStatement | test-script/python/db.py:157-188 | every issued UPDATE binds exactly when the first one does, so an OverflowError comes before anything is written |
| Transactions.RunPlan | test-script/python/db.py:157-196 | the statements run in order; the run completes exactly when none of them is the failing call, and then keeps row ids, sequences, table invariants and links |
| Transactions.RunUpdatePlan | test-script/python/db.py:157-188 | the issued statements are the parent UPDATE when its SET list is non-empty, then the child UPDATE when its SET list is non-empty; the run stops at a failing one |
| Transactions.Update | test-script/python/db.py:121-196 | with no connection: False, unchanged. Closed connection: raises ProgrammingError. A failing BEGIN, or the first issued UPDATE failing to compile: False. Otherwise, an int of an issued UPDATE (key or count) outside SQLite's INTEGER range raises OverflowError with the tables unchanged. Otherwise True exactly when neither an issued UPDATE (compiling or running) nor the commit fails; anything but True leaves both tables unchanged. No row is added or removed; the invariants and links are kept |
| Transactions.ParentStatementMeaning | test-script/python/db.py:157-160 | the parent UPDATE replaces the supplied fields of the row with id `key` only, and does not touch `kiosk_product` |
| Transactions.ChildStatementMeaning | test-script/python/db.py:185-188 | the child UPDATE replaces the supplied fields of every row whose `frozen_id` is `key`, and does not touch `frozen_inventory` |
| Transactions.UpdateMeaning | test-script/python/db.py:137-191 | after a successful update, the parent row `key` and every child row with `frozen_id` = `key` carry the supplied fields, and every other row is as before |
| Transactions.UpdateNoFields | test-script/python/db.py:157-191 | with no field supplied no statement is issued; unless BEGIN or the commit fails, the call returns True and changes nothing |
| Transactions.UpdateNoMatch | test-script/python/db.py:158-191 | an update whose key matches no row changes nothing, and still returns True unless a value cannot be bound (there is no rowcount check) |
| Transactions.ExecuteNoMatch | test-script/python/db.py:186-188 | a child UPDATE whose key matches no row leaves the tables as they were |
| Transactions.UpdatePriceOnly | test-script/python/db.py:141-188 | an update supplying only price and/or picture leaves `frozen_inventory` unchanged; in the matching `kiosk_product` rows it changes only those two columns |
| Transactions.KeyTooLargeBinds | test-script/python/db.py:157-188 | with a key outside SQLite's INTEGER range, the issued UPDATEs bind exactly when there are none, which is exactly when no field is supplied |
| Transactions.UpdateKeyTooLarge | test-script/python/db.py:121-196 | with such a key, an update supplying a field raises OverflowError with the tables unchanged, unless its first UPDATE (the parent's when a parent column is supplied, else the child's) fails to compile, which returns False; one supplying none returns True (False if the commit fails) and changes nothing |
| KioskDb.Database.constructor | test-script/python/db.py:48-60 | a new `Database` holds an open connection when connecting succeeded and none otherwise, over the tables of the database file |
| KioskDb.Database.Close | test-script/python/db.py:62-65 | `close()` closes an existing connection and does nothing without one |
| KioskDb.Database.Rollback | test-script/python/db.py:115 | a rollback puts back the tables (and sequences) as they were at BEGIN |
| KioskDb.Database.InsertProduct | test-script/python/db.py:67-117 | the method, compiling and writing the parent row, then the child row, then committing, and rolling back on a failing call, returns what `Transactions.Insert` returns and leaves the tables it gives; the connection is unchanged and the invariant kept |
| KioskDb.Database.UpdateProduct | test-script/python/db.py:121-196 | the method, building, compiling and executing each table's UPDATE in turn and rolling back on a failing call, returns what `Transactions.Update` returns and leaves the tables it gives |
| Importer.LeadingSpacesMeaning | test-script/python/db.py:218 | the leading run `strip()` removes is whitespace, and it stops at the first other character |
| Importer.TrailingSpacesMeaning | test-script/python/db.py:218 | the trailing run `strip()` removes is whitespace, and it stops at the last other character |
| Importer.LeadingSpaces | test-script/python/db.py:218 | the number of leading whitespace characters `strip()` removes, at most the length of the line; `LeadingSpacesMeaning` states what they are |
| Importer.TrailingSpaces | test-script/python/db.py:218 | the number of trailing whitespace characters `strip()` removes, at most the length of the line; `TrailingSpacesMeaning` states what they are |
| Importer.Strip | test-script/python/db.py:218-222 | `line.strip()`: the line without those leading and trailing runs; `StripMeaning` states what the result is |
| Importer.TrailingSpacesAfter | test-script/python/db.py:218 | the trailing run of the text after the leading run, read in the whole line |
| Importer.StripMeaning | test-script/python/db.py:218-219 | the stripped line is empty exactly when the line is whitespace only, and otherwise starts and ends with a non-space |
| Importer.Split | test-script/python/db.py:222 | `split(',')` never gives an empty list; `SplitShape`, `JoinSplit` and `SplitJoin` state what it gives |
| Importer.SplitShape | test-script/python/db.py:222 | `split(',')` gives one field more than there are commas, none holding a comma |
| Importer.JoinSplit | test-script/python/db.py:222 | joining the fields of a split with commas gives the text back |
| Importer.SplitJoin | test-script/python/db.py:222 | splitting a comma-join of comma-free fields gives those fields back |
| Importer.Classify | test-script/python/db.py:218-223 | a line classified as a record has at least five fields |
| Importer.ClassifyMeaning | test-script/python/db.py:218-236 | a line is skipped exactly when it is whitespace only. It is a record exactly when its stripped text has four or more commas, and then its fields rejoin into that text. Otherwise it is reported invalid with its stripped text |
| Importer.ClassifyMilk | test-script/python/db.py:218-233 | `"Milk,Dairy,24,5,49.50\n"` is a record with the five fields `Milk`, `Dairy`, `24`, `5`, `49.50` |
| Importer.ClassifyBadLine | test-script/python/db.py:222-236 | `"BadLine,OnlyThree"` is reported as invalid |
| Importer.ImportLine | test-script/python/db.py:216-236 | one iteration: a blank line changes nothing; an invalid line only adds its report; a `ValueError` raised in parsing, or an exception raised by `insert_product`, changes neither the tables nor the reports; each iteration adds at most one report |
| Importer.RecordLine | test-script/python/db.py:223-234 | a record passes its first two fields as name and category, `int()` of the next two as the counts and `float()` of the fifth as the price, with no picture. A field that does not parse raises ValueError with nothing changed; a count that cannot be bound raises OverflowError (unless BEGIN or compiling the parent INSERT fails first); a failing call reports `(None, None)`. Otherwise the parent and the child row are added under the next ids and `Added` is reported under the first field |
| Importer.ImportMilk | test-script/python/db.py:216-234 | the line `Milk,Dairy,24,5,49.50` adds the product Milk, Dairy, 24 pieces, 5 stocks, the parsed price and no picture under the next two ids, and reports them |
| Importer.SkippedLines | test-script/python/db.py:218-236 | a whitespace-only line is skipped; one with fewer than five fields is reported invalid and never reaches `insert_product` |
| Importer.ImportLineKeeps | test-script/python/db.py:223-234 | one iteration keeps the table invariants and links and removes no row; it adds exactly one row to each table per reported successful insert |
| Importer.InsertLineKeeps | test-script/python/db.py:231-234 | the same for the insert and its `Added` report |
| Importer.GrowsTrans | test-script/python/db.py:216-236 | what one iteration may do to the loop state composes over several iterations |
| Importer.ImportFromKeeps | test-script/python/db.py:215-236 | the rest of the loop keeps the invariants and links and removes no row; it adds one row per table per further reported success |
| Importer.ImportAllKeeps | test-script/python/db.py:215-236 | the whole import leaves a well-formed store holding every earlier row; each table grows by exactly the number of successful inserts reported |
| Importer.ImportFrom | test-script/python/db.py:216-236 | the `for line in file` loop from a given line on, ending at the end of the file or at the first escaping exception; `ImportFromKeeps` and `AbortStopsReading` state its properties |
| Importer.ImportAll | test-script/python/db.py:215-236 | the whole loop over the file's lines from an empty report list; `ImportAllKeeps` states what it does to the store |
| Importer.AbortStopsReading | test-script/python/db.py:226-228 | once an exception has escaped, the lines after the one that raised change nothing |
| Importer.RunLine | test-script/python/db.py:216-236 | the loop body on an open connection, calling `InsertProduct`, does what `ImportLine` says and keeps the connection open |
| Importer.Run | test-script/python/db.py:199-242 | no connection: "connection failed", nothing done. A missing file: no reports, tables kept, connection left open. Otherwise the reports and tables are those of the import fold; a `ValueError` or `OverflowError` ends the run early with that exception and the connection left open, and a full pass ends with it closed |

## Left out

- The sqlite3 plumbing is not modelled: opening the connection, creating
  cursors, and the SQL text of each statement and its execution. Each
  statement is an abstract operation on the two maps. A fault oracle
  (`Option<Step>`) names the call that raises `sqlite3.Error`. It is
  BEGIN, the commit, or one statement, failing either while it compiles
  (before its parameters are bound) or while it runs (after). A
  constraint violation, an I/O error and a lock timeout all count as a
  call failing while it runs.
- A `rollback()` that itself raises is not modelled; rollback always
  restores the state at BEGIN.
- The schema is modelled as the INSERT writes it. The INSERT names the
  flag column `exist` (db.py:93), but the schema comment declares
  `frozen_inventory."exists"` (db.py:12). Against that schema the INSERT
  would fail to compile, the `ParentPrepare` fault. The model writes the
  intended flag value 1.
- The foreign key from `kiosk_product.exist` to
  `frozen_inventory("exists")` (db.py:31) refers to a column that is not
  a key. It is listed here and not modelled. `ON DELETE CASCADE` is not
  modelled, because no operation deletes.
- `set_product` (db.py:36-46) is schema only, with no operation.
- `int()` and `float()` are parameters, `parseInt` and `parseFloat`,
  returning `None` where Python raises `ValueError`. `Importer.ImportLine`
  does not model Python's numeric syntax, and `float()` is taken to yield
  an integer.
- Prices are integers. Floating point rounding of `price` and SQLite's
  NUMERIC affinity are not modelled.
- Transactions.Insert, Transactions.Update: the price is taken to be a
  Python float, as `run()` passes it and as `insert_product` declares it.
  A float binds as REAL and never raises OverflowError. If another caller
  passed an int price outside SQLite's INTEGER range, the source would
  raise OverflowError while binding the child statement. The model does
  not capture that.
- KioskDb.Database.InsertProduct, KioskDb.Database.UpdateProduct: after an
  OverflowError escapes, the transaction BEGIN opened is left open. The
  class does not record that. A later call on the same object would fail
  at its own BEGIN; in `run()` no later call happens.
- `print` output is not modelled. What `run()` prints per line becomes
  the `Report` list, and error messages are not kept.
- The file system is not modelled. The file's existence is the
  `fileExists` input and its lines are the `lines` input, each with its
  newline. The hard-coded Windows paths and `db_path` are not modelled.
- AUTOINCREMENT running past the largest rowid (SQLITE_FULL) is not
  modelled; ids are unbounded integers.
- Keyword arguments are modelled as the `UpdateFields` record; an
  argument's Python type is not checked.
- `android/app/build.gradle.kts` is build configuration only.
  `UsbPermissionReceiver.kt` only reads intent extras and logs. Both are
  platform glue.
