/** What `insert_product` and `update_product` do to the two tables, as
    functions of the connection state, the tables before the call, the
    arguments and a fault oracle naming the database call that fails. */
module Transactions {
  import opened Schema
  import opened SetList

  /** The `(frozen_id, kiosk_id)` tuple `insert_product` returns. */
  type IdPair = (Option<int>, Option<int>)

  const NoIds: IdPair := (None, None)

  /** What a call returns (or raises) and the tables once it is over. */
  datatype Effect<T> = Effect(result: Call<T>, store: Store)

  /** The `frozen_inventory` row `insert_product` writes, flagged as existing. */
  function ParentRow(name: string, category: string, pieces: int, stocks: int): InventoryRow {
    InventoryRow(name, category, pieces, stocks, 1)
  }

  /** The `kiosk_product` row `insert_product` writes for parent `frozenId`:
      nothing used yet, flagged as existing. */
  function ChildRow(frozenId: int, name: string, category: string, pieces: int, stocks: int,
                    price: int, picture: Option<Bytes>): KioskRow {
    KioskRow(frozenId, name, picture, category, price, stocks, pieces, Some(0), 1)
  }

  /** The INTEGER parameters of the parent INSERT can be bound. The child
      INSERT binds the same two counts again, the price as a float and the
      parent id AUTOINCREMENT handed out, so it raises nothing new. */
  predicate InsertBinds(pieces: int, stocks: int) {
    FitsInteger(pieces) && FitsInteger(stocks)
  }

  /** The failing call comes before the parent INSERT binds its parameters:
      BEGIN, or compiling that INSERT. */
  predicate InsertEarlyFault(fault: Option<Step>) {
    fault == Some(Begin) || fault == Some(ParentPrepare)
  }

  /** `insert_product`: both rows in one transaction, or neither. The parent
      id is the `lastrowid` AUTOINCREMENT hands out (the table's sequence
      value + 1) and the child row refers to it. Any failing call rolls the
      transaction back, which restores both tables and both sequences. A
      count too large to bind raises OverflowError before anything is
      written, unless BEGIN or compiling the parent INSERT has failed first;
      it is not an sqlite3.Error, so it escapes without a rollback. */
  function Insert(conn: Conn, s: Store, name: string, category: string, pieces: int, stocks: int,
                  price: int, picture: Option<Bytes>, fault: Option<Step>): (e: Effect<IdPair>)
    ensures conn == NoConn ==> e == Effect(Returned(NoIds), s)
    ensures conn == Closed ==> e == Effect(Raised(ProgrammingError), s)
    ensures conn == Open && !InsertEarlyFault(fault) && !InsertBinds(pieces, stocks) ==>
      e == Effect(Raised(OverflowError), s)
    ensures conn == Open && fault.Some? && (InsertEarlyFault(fault) || InsertBinds(pieces, stocks)) ==>
      e == Effect(Returned(NoIds), s)
    ensures e.result.Raised? ==> e.store == s
    ensures e.result.Returned? <==>
      conn == NoConn || (conn == Open && (InsertEarlyFault(fault) || InsertBinds(pieces, stocks)))
    ensures conn == Open && fault == None && InsertBinds(pieces, stocks) ==>
      var fid, kid := s.frozenSeq + 1, s.kioskSeq + 1;
      && e.result == Returned((Some(fid), Some(kid)))
      && e.store == Store(s.frozen[fid := ParentRow(name, category, pieces, stocks)],
                          s.kiosk[kid := ChildRow(fid, name, category, pieces, stocks, price, picture)],
                          fid, kid)
  {
    match conn
    case NoConn => Effect(Returned(NoIds), s)
    case Closed => Effect(Raised(ProgrammingError), s)   // cursor() is outside the try
    case Open =>
      if InsertEarlyFault(fault) then Effect(Returned(NoIds), s)
      else if !InsertBinds(pieces, stocks) then Effect(Raised(OverflowError), s)
      else if fault == Some(ParentWrite) then Effect(Returned(NoIds), s)
      else
        var fid := s.frozenSeq + 1;
        var s1 := s.(frozen := s.frozen[fid := ParentRow(name, category, pieces, stocks)], frozenSeq := fid);
        // the child INSERT binds no int the parent's has not bound already
        if fault == Some(ChildPrepare) || fault == Some(ChildWrite) then Effect(Returned(NoIds), s)
        else
          var kid := s1.kioskSeq + 1;
          var s2 := s1.(kiosk := s1.kiosk[kid := ChildRow(fid, name, category, pieces, stocks, price, picture)],
                        kioskSeq := kid);
          match fault
          case Some(_) => Effect(Returned(NoIds), s)   // only the commit is left to fail
          case None => Effect(Returned((Some(fid), Some(kid))), s2)
  }

  /** Adding one row under each table's next id keeps the AUTOINCREMENT bookkeeping. */
  lemma FreshRowsValid(s: Store, parent: InventoryRow, child: KioskRow)
    requires StoreValid(s)
    ensures StoreValid(Store(s.frozen[s.frozenSeq + 1 := parent], s.kiosk[s.kioskSeq + 1 := child],
                             s.frozenSeq + 1, s.kioskSeq + 1))
  {
  }

  /** Ids come back exactly when the connection is open, the counts can be
      bound and no call fails; otherwise both ids are `None`, or the call raises. */
  lemma InsertReturnsIds(conn: Conn, s: Store, name: string, category: string, pieces: int, stocks: int,
                         price: int, picture: Option<Bytes>, fault: Option<Step>)
    ensures var e := Insert(conn, s, name, category, pieces, stocks, price, picture, fault);
      && ((e.result.Returned? && e.result.value.0.Some?) <==> (conn == Open && fault == None && InsertBinds(pieces, stocks)))
      && (e.result.Returned? && e.result.value.0.Some? <==> e.result.Returned? && e.result.value.1.Some?)
  {
  }

  /** An insert keeps the table invariants and is all or nothing: one new
      row in each table when ids are returned, none otherwise. */
  lemma InsertKeeps(conn: Conn, s: Store, name: string, category: string, pieces: int, stocks: int,
                    price: int, picture: Option<Bytes>, fault: Option<Step>)
    requires StoreValid(s)
    ensures var e := Insert(conn, s, name, category, pieces, stocks, price, picture, fault);
      var added := if e.result.Returned? && e.result.value.0.Some? then 1 else 0;
      && StoreValid(e.store)
      && (Linked(s) ==> Linked(e.store))
      && e.store.frozen.Keys >= s.frozen.Keys && e.store.kiosk.Keys >= s.kiosk.Keys
      && |e.store.frozen| == |s.frozen| + added
      && |e.store.kiosk| == |s.kiosk| + added
  {
    var e := Insert(conn, s, name, category, pieces, stocks, price, picture, fault);
    if conn == Open && fault == None && InsertBinds(pieces, stocks) {
      var fid, kid := s.frozenSeq + 1, s.kioskSeq + 1;
      assert fid !in s.frozen && kid !in s.kiosk;
      assert e.store.frozen == s.frozen[fid := ParentRow(name, category, pieces, stocks)];
      assert e.store.kiosk == s.kiosk[kid := ChildRow(fid, name, category, pieces, stocks, price, picture)];
    }
  }

  /** A successful insert into a well-formed store returns two positive ids
      that were unused, and adds exactly the two rows they name. */
  lemma InsertSucceeds(s: Store, name: string, category: string, pieces: int, stocks: int,
                       price: int, picture: Option<Bytes>)
    requires StoreValid(s) && InsertBinds(pieces, stocks)
    ensures var e := Insert(Open, s, name, category, pieces, stocks, price, picture, None);
      var fid, kid := s.frozenSeq + 1, s.kioskSeq + 1;
      && e.result == Returned((Some(fid), Some(kid)))
      && fid > 0 && kid > 0 && fid !in s.frozen && kid !in s.kiosk
      && e.store.frozen.Keys == s.frozen.Keys + {fid} && e.store.kiosk.Keys == s.kiosk.Keys + {kid}
      && (forall id :: id in s.frozen ==> e.store.frozen[id] == s.frozen[id])
      && (forall id :: id in s.kiosk ==> e.store.kiosk[id] == s.kiosk[id])
      && e.store.kiosk[kid].frozenId == fid
      && e.store.kiosk[kid].totalPiecesUsed == Some(0) && e.store.kiosk[kid].exist == 1
      && e.store.frozen[fid].exist == 1
  {
    var e := Insert(Open, s, name, category, pieces, stocks, price, picture, None);
    var fid, kid := s.frozenSeq + 1, s.kioskSeq + 1;
    assert fid !in s.frozen;
    assert kid !in s.kiosk;
    assert e.store.frozen == s.frozen[fid := ParentRow(name, category, pieces, stocks)];
    assert e.store.kiosk == s.kiosk[kid := ChildRow(fid, name, category, pieces, stocks, price, picture)];
  }

  /** Inserting the same product twice creates two independent pairs: the
      call is not idempotent. */
  lemma InsertTwiceMakesTwoPairs(s: Store, name: string, category: string, pieces: int, stocks: int,
                                 price: int, picture: Option<Bytes>)
    requires StoreValid(s) && InsertBinds(pieces, stocks)
    ensures var e1 := Insert(Open, s, name, category, pieces, stocks, price, picture, None);
      var e2 := Insert(Open, e1.store, name, category, pieces, stocks, price, picture, None);
      && e1.result.value != e2.result.value
      && |e2.store.frozen| == |s.frozen| + 2 && |e2.store.kiosk| == |s.kiosk| + 2
  {
    var e1 := Insert(Open, s, name, category, pieces, stocks, price, picture, None);
    assert |e1.store.frozen| == |s.frozen| + 1;
  }

  datatype Table = FrozenInventory | KioskProduct

  /** `UPDATE <table> SET <update_parts> WHERE <key column> = ?`, where the key
      column is `id` for `frozen_inventory` and `frozen_id` for `kiosk_product`. */
  datatype Statement = Statement(table: Table, assigns: seq<Assignment>, key: int)

  /** The fault-oracle name of the database call that compiles a statement. */
  function PrepareStep(t: Table): Step {
    match t
    case FrozenInventory => ParentPrepare
    case KioskProduct => ChildPrepare
  }

  /** The fault-oracle name of the database call that runs a statement. */
  function WriteStep(t: Table): Step {
    match t
    case FrozenInventory => ParentWrite
    case KioskProduct => ChildWrite
  }

  /** Compiling or running the UPDATE of table `t` is the failing call. */
  predicate FailsAt(t: Table, fault: Option<Step>) {
    fault == Some(PrepareStep(t)) || fault == Some(WriteStep(t))
  }

  /** `if update_parts:` — a statement only for a non-empty SET list. */
  function Issue(t: Table, a: seq<Assignment>, key: int): seq<Statement> {
    if a == [] then [] else [Statement(t, a, key)]
  }

  /** The statements `update_product` executes, in order. */
  function UpdatePlan(key: int, u: UpdateFields): seq<Statement> {
    Issue(FrozenInventory, FrozenSetList(u), key) + Issue(KioskProduct, KioskSetList(u), key)
  }

  /** At most one UPDATE per table, the parent's first; none at all when no
      field is supplied; the parent's only when a parent column is supplied;
      each with the non-empty SET list of its table. */
  lemma UpdatePlanShape(key: int, u: UpdateFields)
    ensures var plan := UpdatePlan(key, u);
      && |plan| <= 2
      && (plan == [] <==> NoFields(u))
      && (forall i :: 0 <= i < |plan| ==>
            && plan[i].key == key && plan[i].assigns != []
            && plan[i].assigns == (if plan[i].table == FrozenInventory then FrozenSetList(u) else KioskSetList(u)))
      && ((|plan| > 0 && plan[0].table == FrozenInventory) <==>
          !(forall c :: ParentColumn(c) ==> Supplied(u, c) == None))
      && (forall i, j :: 0 <= i < j < |plan| ==> plan[i].table == FrozenInventory && plan[j].table == KioskProduct)
  {
    FrozenSetListEmpty(u);
    KioskSetListEmpty(u);
  }

  /** Running one UPDATE: the matching rows of its table take the SET list,
      no row is added or removed, and the sequences stay. */
  function Execute(s: Store, st: Statement): (r: Store)
    ensures r.frozen.Keys == s.frozen.Keys && r.kiosk.Keys == s.kiosk.Keys
    ensures r.frozenSeq == s.frozenSeq && r.kioskSeq == s.kioskSeq
    ensures forall id :: id in s.kiosk ==> r.kiosk[id].frozenId == s.kiosk[id].frozenId
  {
    match st.table
    case FrozenInventory =>
      s.(frozen := if st.key in s.frozen
                   then s.frozen[st.key := ApplyInventory(s.frozen[st.key], st.assigns)]
                   else s.frozen)
    case KioskProduct =>
      s.(kiosk := map id | id in s.kiosk ::
                    if s.kiosk[id].frozenId == st.key then ApplyKiosk(s.kiosk[id], st.assigns) else s.kiosk[id])
  }

  predicate AllBindable(params: seq<Value>) {
    forall i :: 0 <= i < |params| ==> Bindable(params[i])
  }

  /** Every parameter of a statement can be bound: the value of each
      assignment and the key. */
  predicate Binds(st: Statement) {
    FitsInteger(st.key) && forall i :: 0 <= i < |st.assigns| ==> Bindable(ParamOf(st.assigns[i]))
  }

  /** `Binds` is about exactly the values of `params`, key appended. */
  lemma BindsParams(st: Statement)
    ensures Binds(st) <==> AllBindable(Params(st.assigns, st.key))
  {
    var a, p := st.assigns, Params(st.assigns, st.key);
    if Binds(st) {
      forall i | 0 <= i < |p| ensures Bindable(p[i]) {
        if i < |a| { assert p[i] == ParamOf(a[i]); }
      }
      assert AllBindable(p);
    }
    if AllBindable(p) {
      assert Bindable(p[|a|]);
      forall i | 0 <= i < |a| ensures Bindable(ParamOf(a[i])) {
        assert p[i] == ParamOf(a[i]);
      }
    }
  }

  /** Each UPDATE that `update_product` issues can be bound. */
  predicate UpdateBinds(key: int, u: UpdateFields) {
    && (FrozenSetList(u) != [] ==> Binds(Statement(FrozenInventory, FrozenSetList(u), key)))
    && (KioskSetList(u) != [] ==> Binds(Statement(KioskProduct, KioskSetList(u), key)))
  }

  /** Once the parent UPDATE's parameters are bound, the child UPDATE's can
      be too: it binds the same counts and key, plus a float and a BLOB. */
  lemma ChildBindsAfterParent(key: int, u: UpdateFields)
    requires Binds(Statement(FrozenInventory, FrozenSetList(u), key))
    ensures Binds(Statement(KioskProduct, KioskSetList(u), key))
  {
    var fa, ka := FrozenSetList(u), KioskSetList(u);
    forall i | 0 <= i < |ka| ensures Bindable(ParamOf(ka[i])) {
      if i < |fa| {
        assert ka[i] == ka[..|fa|][i];
      } else {
        assert !ParentColumn(ColumnOf(ka[i]));
        match ka[i]
        case SetPrice(_) =>
        case SetPicture(_) =>
      }
    }
  }

  /** An OverflowError can only come from the first issued UPDATE, before
      anything is written. */
  lemma OverflowAtFirstStatement(key: int, u: UpdateFields)
    ensures var plan := UpdatePlan(key, u);
      UpdateBinds(key, u) <==> (plan == [] || Binds(plan[0]))
  {
    var fa, ka := FrozenSetList(u), KioskSetList(u);
    var plan := UpdatePlan(key, u);
    if fa != [] {
      assert plan[0] == Statement(FrozenInventory, fa, key);
      if Binds(plan[0]) {
        ChildBindsAfterParent(key, u);
      }
    } else if ka != [] {
      assert plan[0] == Statement(KioskProduct, ka, key);
    }
  }

  /** The failing call comes before any UPDATE binds its parameters: BEGIN,
      or compiling the first issued UPDATE. */
  predicate UpdateEarlyFault(key: int, u: UpdateFields, fault: Option<Step>) {
    var plan := UpdatePlan(key, u);
    fault == Some(Begin) || (plan != [] && fault == Some(PrepareStep(plan[0].table)))
  }

  /** No statement of the plan is the failing call. */
  predicate PlanRuns(plan: seq<Statement>, fault: Option<Step>) {
    forall i :: 0 <= i < |plan| ==> !FailsAt(plan[i].table, fault)
  }

  /** The statements run one after another until one fails. */
  function RunPlan(s: Store, plan: seq<Statement>, fault: Option<Step>): (r: Option<Store>)
    ensures r.Some? <==> PlanRuns(plan, fault)
    ensures r.Some? ==>
      && r.value.frozen.Keys == s.frozen.Keys && r.value.kiosk.Keys == s.kiosk.Keys
      && r.value.frozenSeq == s.frozenSeq && r.value.kioskSeq == s.kioskSeq
      && (forall id :: id in s.kiosk ==> r.value.kiosk[id].frozenId == s.kiosk[id].frozenId)
      && (StoreValid(s) ==> StoreValid(r.value))
      && (Linked(s) ==> Linked(r.value))
    decreases |plan|
  {
    if plan == [] then Some(s)
    else if FailsAt(plan[0].table, fault) then None
    else RunPlan(Execute(s, plan[0]), plan[1..], fault)
  }

  /** `update_product`: the issued statements and the commit in one
      transaction. Any failing call rolls both tables back and yields False;
      there is no check of how many rows matched. An int too large to bind
      raises OverflowError, which is not an sqlite3.Error and escapes, unless
      BEGIN or compiling the first statement has failed before; it comes
      from the first statement, so nothing has been written by then. */
  function Update(conn: Conn, s: Store, key: int, u: UpdateFields, fault: Option<Step>): (e: Effect<bool>)
    ensures conn == NoConn ==> e == Effect(Returned(false), s)
    ensures conn == Closed ==> e == Effect(Raised(ProgrammingError), s)
    ensures conn == Open && !UpdateEarlyFault(key, u, fault) && !UpdateBinds(key, u) ==>
      e == Effect(Raised(OverflowError), s)
    ensures e.result.Returned? <==>
      conn == NoConn || (conn == Open && (UpdateEarlyFault(key, u, fault) || UpdateBinds(key, u)))
    ensures e.result == Returned(true) || e.store == s
    ensures e.result == Returned(true) <==>
      && conn == Open && fault != Some(Begin) && fault != Some(Commit)
      && UpdateBinds(key, u) && PlanRuns(UpdatePlan(key, u), fault)
    ensures e.store.frozen.Keys == s.frozen.Keys && e.store.kiosk.Keys == s.kiosk.Keys
    ensures e.store.frozenSeq == s.frozenSeq && e.store.kioskSeq == s.kioskSeq
    ensures StoreValid(s) ==> StoreValid(e.store)
    ensures Linked(s) ==> Linked(e.store)
  {
    match conn
    case NoConn => Effect(Returned(false), s)
    case Closed => Effect(Raised(ProgrammingError), s)   // cursor() is outside the try
    case Open =>
      if UpdateEarlyFault(key, u, fault) then Effect(Returned(false), s)
      else if !UpdateBinds(key, u) then Effect(Raised(OverflowError), s)
      else
        var run := RunPlan(s, UpdatePlan(key, u), fault);
        if run.None? || fault == Some(Commit) then Effect(Returned(false), s)
        else Effect(Returned(true), run.value)
  }

  /** The issued statements run as the source writes them: the parent
      UPDATE when its SET list is non-empty, then the child UPDATE when its
      SET list is non-empty, stopping at a failing one. */
  lemma RunUpdatePlan(s: Store, key: int, u: UpdateFields, fault: Option<Step>)
    ensures var fa, ka := FrozenSetList(u), KioskSetList(u);
      var s1 := if fa != [] then Execute(s, Statement(FrozenInventory, fa, key)) else s;
      var s2 := if ka != [] then Execute(s1, Statement(KioskProduct, ka, key)) else s1;
      RunPlan(s, UpdatePlan(key, u), fault) ==
        if (fa != [] && FailsAt(FrozenInventory, fault)) || (ka != [] && FailsAt(KioskProduct, fault)) then None
        else Some(s2)
  {
    var fa, ka := FrozenSetList(u), KioskSetList(u);
    var plan := UpdatePlan(key, u);
    var s1 := if fa != [] then Execute(s, Statement(FrozenInventory, fa, key)) else s;
    var s2 := if ka != [] then Execute(s1, Statement(KioskProduct, ka, key)) else s1;
    assert fa != [] ==> ka != [];
    if fa != [] {
      assert plan == [Statement(FrozenInventory, fa, key), Statement(KioskProduct, ka, key)];
      assert plan[1..] == [Statement(KioskProduct, ka, key)];
      assert plan[1..][1..] == [];
      if !FailsAt(FrozenInventory, fault) {
        assert RunPlan(s, plan, fault) == RunPlan(s1, plan[1..], fault);
        if !FailsAt(KioskProduct, fault) {
          assert RunPlan(s1, plan[1..], fault) == RunPlan(s2, plan[1..][1..], fault);
        }
      }
    } else if ka != [] {
      assert plan == [Statement(KioskProduct, ka, key)];
      assert plan[1..] == [];
      if !FailsAt(KioskProduct, fault) {
        assert RunPlan(s, plan, fault) == RunPlan(s2, plan[1..], fault);
      }
    } else {
      assert plan == [];
    }
  }

  /** The parent UPDATE, when it is issued, is the reference update of the
      row with id `key`; the child table is not touched. */
  lemma ParentStatementMeaning(s: Store, key: int, u: UpdateFields)
    ensures var fa := FrozenSetList(u);
      var s1 := if fa != [] then Execute(s, Statement(FrozenInventory, fa, key)) else s;
      && s1.kiosk == s.kiosk
      && forall id :: id in s.frozen ==>
           s1.frozen[id] == if id == key then UpdatedInventory(s.frozen[id], u) else s.frozen[id]
  {
    if key in s.frozen {
      var row := s.frozen[key];
      FrozenSetListMeaning(row, u);
      if FrozenSetList(u) == [] {
        assert ApplyInventory(row, []) == row;
      }
    }
  }

  /** The child UPDATE, when it is issued, is the reference update of every
      row whose `frozen_id` is `key`; the parent table is not touched. */
  lemma ChildStatementMeaning(s: Store, key: int, u: UpdateFields)
    ensures var ka := KioskSetList(u);
      var s2 := if ka != [] then Execute(s, Statement(KioskProduct, ka, key)) else s;
      && s2.frozen == s.frozen
      && forall id :: id in s.kiosk ==>
           s2.kiosk[id] == if s.kiosk[id].frozenId == key then UpdatedKiosk(s.kiosk[id], u) else s.kiosk[id]
  {
    var ka := KioskSetList(u);
    forall id | id in s.kiosk && s.kiosk[id].frozenId == key
      ensures (if ka != [] then Execute(s, Statement(KioskProduct, ka, key)) else s).kiosk[id] ==
              UpdatedKiosk(s.kiosk[id], u)
    {
      KioskSetListMeaning(s.kiosk[id], u);
      if ka == [] {
        assert ApplyKiosk(s.kiosk[id], []) == s.kiosk[id];
      }
    }
  }

  /** A successful update is the reference update: the parent row with id
      `key` and every child row whose `frozen_id` is `key` get the supplied
      fields, and every other row is untouched. */
  lemma UpdateMeaning(s: Store, key: int, u: UpdateFields, fault: Option<Step>)
    requires Update(Open, s, key, u, fault).result == Returned(true)
    ensures var r := Update(Open, s, key, u, fault).store;
      && (forall id :: id in s.frozen ==>
            r.frozen[id] == if id == key then UpdatedInventory(s.frozen[id], u) else s.frozen[id])
      && (forall id :: id in s.kiosk ==>
            r.kiosk[id] == if s.kiosk[id].frozenId == key then UpdatedKiosk(s.kiosk[id], u) else s.kiosk[id])
  {
    var fa := FrozenSetList(u);
    var s1 := if fa != [] then Execute(s, Statement(FrozenInventory, fa, key)) else s;
    RunUpdatePlan(s, key, u, fault);
    ParentStatementMeaning(s, key, u);
    ChildStatementMeaning(s1, key, u);
  }

  /** With no field supplied no statement is issued; unless the BEGIN or the
      commit fails, the call returns True and changes nothing. */
  lemma UpdateNoFields(s: Store, key: int, u: UpdateFields, fault: Option<Step>)
    requires NoFields(u)
    requires fault != Some(Begin) && fault != Some(Commit)
    ensures UpdatePlan(key, u) == []
    ensures Update(Open, s, key, u, fault) == Effect(Returned(true), s)
  {
  }

  /** An update naming a key that matches no row changes nothing; it still
      returns True unless a value cannot be bound. */
  lemma UpdateNoMatch(s: Store, key: int, u: UpdateFields)
    requires key !in s.frozen
    requires forall id :: id in s.kiosk ==> s.kiosk[id].frozenId != key
    ensures Update(Open, s, key, u, None) ==
            Effect(if UpdateBinds(key, u) then Returned(true) else Raised(OverflowError), s)
  {
    var fa, ka := FrozenSetList(u), KioskSetList(u);
    var s1 := if fa != [] then Execute(s, Statement(FrozenInventory, fa, key)) else s;
    var s2 := if ka != [] then Execute(s1, Statement(KioskProduct, ka, key)) else s1;
    RunUpdatePlan(s, key, u, None);
    assert s1 == s;
    if ka != [] {
      ExecuteNoMatch(s, Statement(KioskProduct, ka, key));
    }
  }

  lemma ExecuteNoMatch(s: Store, st: Statement)
    requires st.table == KioskProduct
    requires forall id :: id in s.kiosk ==> s.kiosk[id].frozenId != st.key
    ensures Execute(s, st) == s
  {
    var r := Execute(s, st);
    forall id | id in s.kiosk ensures r.kiosk[id] == s.kiosk[id] {
    }
    assert r.kiosk == s.kiosk;
  }

  /** An update supplying only `price` and/or `picture` leaves
      `frozen_inventory` as it was and changes only those two columns of the
      `kiosk_product` rows whose `frozen_id` is the key. */
  lemma UpdatePriceOnly(s: Store, key: int, u: UpdateFields, fault: Option<Step>)
    requires u.productName == None && u.category == None && u.totalPieces == None && u.totalStocks == None
    requires Update(Open, s, key, u, fault).result == Returned(true)
    ensures var r := Update(Open, s, key, u, fault).store;
      && r.frozen == s.frozen
      && forall id :: id in s.kiosk ==>
           r.kiosk[id] == if s.kiosk[id].frozenId == key
                          then s.kiosk[id].(price := u.price.GetOr(s.kiosk[id].price),
                                            picture := if u.picture.Some? then u.picture else s.kiosk[id].picture)
                          else s.kiosk[id]
  {
    UpdateMeaning(s, key, u, fault);
    var r := Update(Open, s, key, u, fault).store;
    forall id | id in s.frozen ensures r.frozen[id] == s.frozen[id] {
      assert UpdatedInventory(s.frozen[id], u) == s.frozen[id];
    }
  }

  /** A key too large for SQLite's INTEGER can be bound by no statement,
      so the plan binds exactly when it is empty. */
  lemma KeyTooLargeBinds(key: int, u: UpdateFields)
    requires !FitsInteger(key)
    ensures UpdateBinds(key, u) <==> UpdatePlan(key, u) == []
    ensures UpdatePlan(key, u) == [] <==> NoFields(u)
  {
    KioskSetListEmpty(u);
  }

  /** A key too large for SQLite's INTEGER: with a field supplied, binding
      the first UPDATE raises OverflowError, unless that UPDATE fails to
      compile first; with none, no statement is issued and the call commits
      as usual. */
  lemma UpdateKeyTooLarge(s: Store, key: int, u: UpdateFields, fault: Option<Step>)
    requires !FitsInteger(key) && fault != Some(Begin)
    ensures Update(Open, s, key, u, fault) ==
            if NoFields(u) then Effect(Returned(fault != Some(Commit)), s)
            else if fault == Some(if FrozenSetList(u) != [] then ParentPrepare else ChildPrepare)
            then Effect(Returned(false), s)
            else Effect(Raised(OverflowError), s)
  {
    KeyTooLargeBinds(key, u);
    if NoFields(u) {
      assert RunPlan(s, UpdatePlan(key, u), fault) == Some(s);
    }
  }
}
