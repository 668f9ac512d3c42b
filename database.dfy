/** The `Database` class: one connection and, behind it, the two tables it
    writes. Each method changes the tables step by step inside a transaction
    and is proved to end in the state the `Transactions` functions give. */
module KioskDb {
  import opened Schema
  import opened SetList
  import opened Transactions

  class Database {
    var conn: Conn
    /** What the database file behind the connection holds: both tables
        and their AUTOINCREMENT sequences. */
    var tables: Store

    predicate Valid()
      reads this
    {
      StoreValid(tables)
    }

    /** `Database(db_path)`: `connected` says whether `sqlite3.connect`
        succeeded; `disk` is what the database file already holds. */
    constructor (connected: bool, disk: Store)
      requires StoreValid(disk)
      ensures Valid() && tables == disk
      ensures conn == if connected then Open else NoConn
    {
      conn := if connected then Open else NoConn;
      tables := disk;
    }

    /** `close()`: closes a connection if there is one; closing twice is harmless. */
    method Close()
      modifies this`conn
      ensures conn == if old(conn) == NoConn then NoConn else Closed
    {
      if conn != NoConn {
        conn := Closed;
      }
    }

    /** `rollback()`: back to the tables as they were at BEGIN TRANSACTION. */
    method Rollback(snapshot: Store)
      modifies this`tables
      ensures tables == snapshot
    {
      tables := snapshot;
    }

    /** `insert_product`: the parent row, then the child row naming the
        parent's new id, then the commit; a failing call rolls back, a count
        that cannot be bound raises unless BEGIN or compiling the parent INSERT
        has failed first. */
    method InsertProduct(name: string, category: string, pieces: int, stocks: int,
                         price: int, picture: Option<Bytes>, fault: Option<Step>)
      returns (r: Call<IdPair>)
      requires Valid()
      modifies this
      ensures Valid() && conn == old(conn)
      ensures Effect(r, tables) ==
              Insert(old(conn), old(tables), name, category, pieces, stocks, price, picture, fault)
    {
      if conn == NoConn {
        return Returned(NoIds);
      }
      if conn == Closed {
        return Raised(ProgrammingError);
      }
      var before := tables;
      if fault == Some(Begin) {
        Rollback(before);
        return Returned(NoIds);
      }
      if fault == Some(ParentPrepare) {
        // the parent INSERT fails to compile, before it binds anything
        Rollback(before);
        return Returned(NoIds);
      }
      if !InsertBinds(pieces, stocks) {
        // binding the parent INSERT's parameters raises OverflowError, which
        // the `except sqlite3.Error` does not catch: no rollback
        return Raised(OverflowError);
      }
      if fault == Some(ParentWrite) {
        Rollback(before);
        return Returned(NoIds);
      }
      var frozenId := tables.frozenSeq + 1;
      tables := tables.(frozen := tables.frozen[frozenId := ParentRow(name, category, pieces, stocks)],
                        frozenSeq := frozenId);
      if fault == Some(ChildPrepare) || fault == Some(ChildWrite) {
        Rollback(before);
        return Returned(NoIds);
      }
      var kioskId := tables.kioskSeq + 1;
      tables := tables.(kiosk := tables.kiosk[kioskId := ChildRow(frozenId, name, category, pieces, stocks, price, picture)],
                        kioskSeq := kioskId);
      if fault.Some? {
        // the commit fails
        Rollback(before);
        return Returned(NoIds);
      }
      FreshRowsValid(before, ParentRow(name, category, pieces, stocks),
                     ChildRow(frozenId, name, category, pieces, stocks, price, picture));
      r := Returned((Some(frozenId), Some(kioskId)));
      assert Effect(r, tables) == Insert(Open, before, name, category, pieces, stocks, price, picture, None);
    }

    /** `update_product`: an UPDATE of `frozen_inventory` by `id` when a
        parent field is supplied, an UPDATE of `kiosk_product` by `frozen_id`
        when any field is supplied, then the commit; a failing call rolls
        back, a value that cannot be bound raises unless BEGIN or compiling the
        first UPDATE has failed first. */
    method UpdateProduct(key: int, u: UpdateFields, fault: Option<Step>) returns (r: Call<bool>)
      requires Valid()
      modifies this
      ensures Valid() && conn == old(conn)
      ensures Effect(r, tables) == Update(old(conn), old(tables), key, u, fault)
    {
      if conn == NoConn {
        return Returned(false);
      }
      if conn == Closed {
        return Raised(ProgrammingError);
      }
      var before := tables;
      RunUpdatePlan(before, key, u, fault);
      if fault == Some(Begin) {
        Rollback(before);
        return Returned(false);
      }
      // each cursor.execute runs one UPDATE statement on the current tables
      var updateParts := FrozenSetList(u);
      if updateParts != [] {
        if fault == Some(ParentPrepare) {
          Rollback(before);
          return Returned(false);
        }
        if !Binds(Statement(FrozenInventory, updateParts, key)) {
          // OverflowError while binding `params`: not caught, no rollback
          return Raised(OverflowError);
        }
        ChildBindsAfterParent(key, u);
        if fault == Some(ParentWrite) {
          Rollback(before);
          return Returned(false);
        }
        tables := Execute(tables, Statement(FrozenInventory, updateParts, key));
      }
      updateParts := KioskSetList(u);
      if updateParts != [] {
        if fault == Some(ChildPrepare) {
          Rollback(before);
          return Returned(false);
        }
        if !Binds(Statement(KioskProduct, updateParts, key)) {
          return Raised(OverflowError);
        }
        if fault == Some(ChildWrite) {
          Rollback(before);
          return Returned(false);
        }
        tables := Execute(tables, Statement(KioskProduct, updateParts, key));
      }
      if fault == Some(Commit) {
        Rollback(before);
        return Returned(false);
      }
      return Returned(true);
    }
  }
}
