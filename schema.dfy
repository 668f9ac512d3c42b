/** The two tables of the kiosk database, the connection state of a `Database`
    object and the shapes of the values its operations return. */
module Schema {

  datatype Option<T> = None | Some(value: T) {
    function GetOr(default: T): T {
      if Some? then value else default
    }
  }

  /** A BLOB value (the `picture` column). */
  type Bytes = seq<bv8>

  /** What `Database.conn` holds: nothing because connecting failed, an open
      connection, or a connection on which `close()` has been called (still a
      truthy object, but every further use of it raises). */
  datatype Conn = NoConn | Open | Closed

  /** The exceptions that escape the modelled code instead of being caught. */
  datatype Exception =
    | ProgrammingError  // using a closed sqlite3 connection
    | ValueError        // int()/float() on a malformed field
    | OverflowError     // binding a Python int that does not fit SQLite's INTEGER

  /** The range of SQLite's INTEGER (a signed 64-bit integer): the Python
      ints the sqlite3 module can bind as statement parameters. */
  predicate FitsInteger(n: int) {
    -0x8000_0000_0000_0000 <= n <= 0x7FFF_FFFF_FFFF_FFFF
  }

  /** The outcome of a Python call: a returned value or an escaping exception. */
  datatype Call<T> = Returned(value: T) | Raised(error: Exception)

  /** The database calls of one transaction; a fault oracle names the one that
      fails with an sqlite3.Error, if any. `cursor.execute` first compiles its
      statement (`ParentPrepare`, `ChildPrepare`: a missing table or column
      fails here, before any parameter is bound) and then binds the
      parameters and runs it (`ParentWrite`, `ChildWrite`). */
  datatype Step = Begin | ParentPrepare | ParentWrite | ChildPrepare | ChildWrite | Commit

  /** A row of `frozen_inventory` (the inventory record). */
  datatype InventoryRow = InventoryRow(
    productName: string,
    category: string,
    totalPieces: int,
    totalStocks: int,
    exist: int)

  /** A row of `kiosk_product` (the sellable product); `frozenId` refers to a
      `frozen_inventory` id, `picture` and `totalPiecesUsed` are nullable. */
  datatype KioskRow = KioskRow(
    frozenId: int,
    productName: string,
    picture: Option<Bytes>,
    category: string,
    price: int,
    totalStocks: int,
    totalPieces: int,
    totalPiecesUsed: Option<int>,
    exist: int)

  /** Both tables, keyed by their `id` column, with the AUTOINCREMENT sequence
      value of each (the largest id either table has handed out). */
  datatype Store = Store(
    frozen: map<int, InventoryRow>,
    kiosk: map<int, KioskRow>,
    frozenSeq: nat,
    kioskSeq: nat)

  /** AUTOINCREMENT bookkeeping: no row has an id above its table's sequence
      value, so the next id (sequence + 1) is always unused. */
  predicate StoreValid(s: Store) {
    && (forall id :: id in s.frozen ==> id <= s.frozenSeq)
    && (forall id :: id in s.kiosk ==> id <= s.kioskSeq)
  }

  /** Every `kiosk_product` row refers to an existing `frozen_inventory` row. */
  predicate Linked(s: Store) {
    forall id :: id in s.kiosk ==> s.kiosk[id].frozenId in s.frozen
  }
}
