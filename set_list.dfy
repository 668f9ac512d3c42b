/** The SET lists `update_product` assembles, one per table, and what an
    `UPDATE ... SET` with such a list does to a row. */
module SetList {
  import opened Schema

  /** The updatable columns, in the order `update_product` tests its arguments. */
  datatype Column = ProductName | Category | TotalPieces | TotalStocks | Price | Picture

  function Rank(c: Column): nat {
    match c
    case ProductName => 0
    case Category => 1
    case TotalPieces => 2
    case TotalStocks => 3
    case Price => 4
    case Picture => 5
  }

  /** The columns that `frozen_inventory` receives; `price` and `picture`
      exist only in `kiosk_product`. */
  predicate ParentColumn(c: Column) {
    Rank(c) < 4
  }

  /** A bound statement parameter. `price` is a Python float, bound as an
      SQLite REAL; its number stands for that float. */
  datatype Value = Text(text: string) | Integer(number: int) | Real(amount: int) | Blob(bytes: Bytes)

  /** A parameter the sqlite3 module can bind: an int outside SQLite's
      INTEGER range raises OverflowError instead; a float never does. */
  predicate Bindable(v: Value) {
    v.Integer? ==> FitsInteger(v.number)
  }

  /** One `column = ?` entry of `update_parts` together with the value
      appended to `params` beside it. */
  datatype Assignment =
    | SetProductName(name: string)
    | SetCategory(category: string)
    | SetTotalPieces(pieces: int)
    | SetTotalStocks(stocks: int)
    | SetPrice(price: int)
    | SetPicture(picture: Bytes)

  function ColumnOf(a: Assignment): Column {
    match a
    case SetProductName(_) => ProductName
    case SetCategory(_) => Category
    case SetTotalPieces(_) => TotalPieces
    case SetTotalStocks(_) => TotalStocks
    case SetPrice(_) => Price
    case SetPicture(_) => Picture
  }

  function ParamOf(a: Assignment): Value {
    match a
    case SetProductName(n) => Text(n)
    case SetCategory(c) => Text(c)
    case SetTotalPieces(p) => Integer(p)
    case SetTotalStocks(s) => Integer(s)
    case SetPrice(p) => Real(p)
    case SetPicture(b) => Blob(b)
  }

  /** The optional keyword arguments of `update_product`; `None` is Python's
      `None` (an empty string, 0 or empty bytes are values). */
  datatype UpdateFields = UpdateFields(
    productName: Option<string>,
    category: Option<string>,
    totalPieces: Option<int>,
    totalStocks: Option<int>,
    price: Option<int>,
    picture: Option<Bytes>)

  /** The argument given for column `c`, as the parameter it would bind. */
  function Supplied(u: UpdateFields, c: Column): Option<Value> {
    match c
    case ProductName => if u.productName.Some? then Some(Text(u.productName.value)) else None
    case Category => if u.category.Some? then Some(Text(u.category.value)) else None
    case TotalPieces => if u.totalPieces.Some? then Some(Integer(u.totalPieces.value)) else None
    case TotalStocks => if u.totalStocks.Some? then Some(Integer(u.totalStocks.value)) else None
    case Price => if u.price.Some? then Some(Real(u.price.value)) else None
    case Picture => if u.picture.Some? then Some(Blob(u.picture.value)) else None
  }

  /** True when no keyword argument was given. */
  predicate NoFields(u: UpdateFields) {
    forall c :: Supplied(u, c) == None
  }

  /** Columns strictly increasing in the fixed order: no column twice, none out of place. */
  predicate Ordered(a: seq<Assignment>) {
    forall i, j :: 0 <= i < j < |a| ==> Rank(ColumnOf(a[i])) < Rank(ColumnOf(a[j]))
  }

  /** One `if x is not None:` block: an assignment for `c` exactly when its
      argument was supplied. */
  function Emit(u: UpdateFields, c: Column): (r: seq<Assignment>)
    ensures |r| <= 1
    ensures r == [] <==> Supplied(u, c) == None
    ensures forall i :: 0 <= i < |r| ==> ColumnOf(r[i]) == c && Supplied(u, c) == Some(ParamOf(r[i]))
  {
    match c
    case ProductName => if u.productName.Some? then [SetProductName(u.productName.value)] else []
    case Category => if u.category.Some? then [SetCategory(u.category.value)] else []
    case TotalPieces => if u.totalPieces.Some? then [SetTotalPieces(u.totalPieces.value)] else []
    case TotalStocks => if u.totalStocks.Some? then [SetTotalStocks(u.totalStocks.value)] else []
    case Price => if u.price.Some? then [SetPrice(u.price.value)] else []
    case Picture => if u.picture.Some? then [SetPicture(u.picture.value)] else []
  }

  /** Every column of `a` comes before position `k` of the fixed order. */
  predicate Below(a: seq<Assignment>, k: nat) {
    forall i :: 0 <= i < |a| ==> Rank(ColumnOf(a[i])) < k
  }

  /** Every entry of `a` carries the argument supplied for its column. */
  predicate Carries(u: UpdateFields, a: seq<Assignment>) {
    forall i :: 0 <= i < |a| ==> Supplied(u, ColumnOf(a[i])) == Some(ParamOf(a[i]))
  }

  /** A prefix of a SET list, built from the tests for the first `k` columns. */
  predicate Built(u: UpdateFields, a: seq<Assignment>, k: nat) {
    Ordered(a) && Below(a, k) && Carries(u, a)
  }

  /** Appending the block for the next column keeps the list ordered and faithful. */
  lemma EmitAfter(a: seq<Assignment>, u: UpdateFields, c: Column)
    requires Built(u, a, Rank(c))
    ensures Built(u, a + Emit(u, c), Rank(c) + 1)
  {
    var e := Emit(u, c);
    var r := a + e;
    forall i | 0 <= i < |r| ensures Rank(ColumnOf(r[i])) <= Rank(c) && Supplied(u, ColumnOf(r[i])) == Some(ParamOf(r[i])) {
      if i < |a| { assert r[i] == a[i]; } else { assert r[i] == e[i - |a|]; }
    }
    forall i, j | 0 <= i < j < |r| ensures Rank(ColumnOf(r[i])) < Rank(ColumnOf(r[j])) {
      if j < |a| {
        assert r[i] == a[i] && r[j] == a[j];
      } else {
        assert r[i] == a[i] && r[j] == e[j - |a|];
      }
    }
  }

  /** The SET list for `frozen_inventory`: the four parent columns only, in
      order, each carrying the value supplied for it. */
  function FrozenSetList(u: UpdateFields): (r: seq<Assignment>)
    ensures Ordered(r)
    ensures forall i :: 0 <= i < |r| ==> ParentColumn(ColumnOf(r[i]))
    ensures forall i :: 0 <= i < |r| ==> Supplied(u, ColumnOf(r[i])) == Some(ParamOf(r[i]))
  {
    var a, b, c, d := Emit(u, ProductName), Emit(u, Category), Emit(u, TotalPieces), Emit(u, TotalStocks);
    assert [] + a == a;
    EmitAfter([], u, ProductName);
    var ab := a + b;
    EmitAfter(a, u, Category);
    assert Built(u, ab, 2);
    var abc := ab + c;
    EmitAfter(ab, u, TotalPieces);
    assert Built(u, abc, 3);
    EmitAfter(abc, u, TotalStocks);
    assert Built(u, abc + d, 4);
    abc + d
  }

  /** The SET list for `kiosk_product`: the same four tests as the parent's
      list, then `price` and `picture` after it. */
  function KioskSetList(u: UpdateFields): (r: seq<Assignment>)
    ensures Ordered(r)
    ensures forall i :: 0 <= i < |r| ==> Supplied(u, ColumnOf(r[i])) == Some(ParamOf(r[i]))
    ensures |FrozenSetList(u)| <= |r| && r[..|FrozenSetList(u)|] == FrozenSetList(u)
    ensures forall i :: |FrozenSetList(u)| <= i < |r| ==> !ParentColumn(ColumnOf(r[i]))
  {
    var f, p, q := FrozenSetList(u), Emit(u, Price), Emit(u, Picture);
    assert Built(u, f, 4);
    EmitAfter(f, u, Price);
    var fp := f + p;
    assert Built(u, fp, 5);
    EmitAfter(fp, u, Picture);
    assert Built(u, fp + q, 6);
    assert (fp + q)[..|f|] == f;
    assert forall i :: |f| <= i < |fp + q| ==> (fp + q)[i] in p + q;
    fp + q
  }

  /** `update_parts` as the list of column names, in the order of the
      assignments; it records the shape of the SET clause. */
  function Parts(a: seq<Assignment>): (r: seq<Column>)
    ensures |r| == |a|
    ensures forall i :: 0 <= i < |a| ==> r[i] == ColumnOf(a[i])
  {
    if a == [] then [] else [ColumnOf(a[0])] + Parts(a[1..])
  }

  /** `params` after the key has been appended: one value per `?` of the SET
      list, in the same order, and the key for the WHERE clause last. */
  function Params(a: seq<Assignment>, key: int): (r: seq<Value>)
    ensures |r| == |a| + 1
    ensures r[|a|] == Integer(key)
    ensures forall i :: 0 <= i < |a| ==> r[i] == ParamOf(a[i])
  {
    if a == [] then [Integer(key)] else [ParamOf(a[0])] + Params(a[1..], key)
  }

  /** The value the SET list gives column `c`: its rightmost entry for `c`,
      as in SQLite, or none. */
  function Lookup(a: seq<Assignment>, c: Column): Option<Value> {
    if a == [] then None
    else
      var later := Lookup(a[1..], c);
      if later.Some? then later
      else if ColumnOf(a[0]) == c then Some(ParamOf(a[0]))
      else None
  }

  lemma {:induction false} LookupAppend(a: seq<Assignment>, b: seq<Assignment>, c: Column)
    ensures Lookup(a + b, c) == if Lookup(b, c).Some? then Lookup(b, c) else Lookup(a, c)
  {
    if a == [] {
      assert a + b == b;
    } else {
      assert (a + b)[1..] == a[1..] + b;
      LookupAppend(a[1..], b, c);
    }
  }

  lemma LookupEmit(u: UpdateFields, e: Column, c: Column)
    ensures Lookup(Emit(u, e), c) == if e == c then Supplied(u, c) else None
  {
    var r := Emit(u, e);
    if r != [] {
      assert r[1..] == [];
    }
  }

  /** The parent SET list gives each parent column exactly the supplied
      argument, and no other column anything. */
  lemma FrozenSetListLookup(u: UpdateFields, c: Column)
    ensures Lookup(FrozenSetList(u), c) == if ParentColumn(c) then Supplied(u, c) else None
  {
    var a, b, d, e := Emit(u, ProductName), Emit(u, Category), Emit(u, TotalPieces), Emit(u, TotalStocks);
    LookupEmit(u, ProductName, c);
    LookupEmit(u, Category, c);
    LookupEmit(u, TotalPieces, c);
    LookupEmit(u, TotalStocks, c);
    LookupAppend(a, b, c);
    LookupAppend(a + b, d, c);
    LookupAppend(a + b + d, e, c);
  }

  /** The child SET list gives every column exactly the supplied argument. */
  lemma KioskSetListLookup(u: UpdateFields, c: Column)
    ensures Lookup(KioskSetList(u), c) == Supplied(u, c)
  {
    var f, p, q := FrozenSetList(u), Emit(u, Price), Emit(u, Picture);
    assert KioskSetList(u) == f + p + q;
    FrozenSetListLookup(u, c);
    LookupEmit(u, Price, c);
    LookupEmit(u, Picture, c);
    LookupAppend(f, p, c);
    LookupAppend(f + p, q, c);
  }

  /** A SET list is empty exactly when none of the columns it may name was supplied. */
  lemma FrozenSetListEmpty(u: UpdateFields)
    ensures FrozenSetList(u) == [] <==> forall c :: ParentColumn(c) ==> Supplied(u, c) == None
  {
    if FrozenSetList(u) != [] {
      var c := ColumnOf(FrozenSetList(u)[0]);
      assert ParentColumn(c) && Supplied(u, c) != None;
    }
    if (exists c :: ParentColumn(c) && Supplied(u, c) != None) {
      var c :| ParentColumn(c) && Supplied(u, c) != None;
      FrozenSetListLookup(u, c);
    }
  }

  /** The `kiosk_product` SET list is empty exactly when no field at all was supplied. */
  lemma KioskSetListEmpty(u: UpdateFields)
    ensures KioskSetList(u) == [] <==> NoFields(u)
  {
    if KioskSetList(u) != [] {
      var c := ColumnOf(KioskSetList(u)[0]);
      assert Supplied(u, c) != None;
    }
    if !NoFields(u) {
      var c :| Supplied(u, c) != None;
      KioskSetListLookup(u, c);
    }
  }

  /** The value of column `c` in a `frozen_inventory` row; the table has no
      `price` or `picture` column. */
  function InventoryField(row: InventoryRow, c: Column): Option<Value> {
    match c
    case ProductName => Some(Text(row.productName))
    case Category => Some(Text(row.category))
    case TotalPieces => Some(Integer(row.totalPieces))
    case TotalStocks => Some(Integer(row.totalStocks))
    case Price => None
    case Picture => None
  }

  /** The value of column `c` in a `kiosk_product` row; a NULL picture has none. */
  function KioskField(row: KioskRow, c: Column): Option<Value> {
    match c
    case ProductName => Some(Text(row.productName))
    case Category => Some(Text(row.category))
    case TotalPieces => Some(Integer(row.totalPieces))
    case TotalStocks => Some(Integer(row.totalStocks))
    case Price => Some(Real(row.price))
    case Picture => if row.picture.Some? then Some(Blob(row.picture.value)) else None
  }

  /** Two parent rows agreeing on every column and on the flag are the same row. */
  lemma InventoryRowsEqual(r1: InventoryRow, r2: InventoryRow)
    requires r1.exist == r2.exist
    requires forall c :: InventoryField(r1, c) == InventoryField(r2, c)
    ensures r1 == r2
  {
    assert InventoryField(r1, ProductName) == InventoryField(r2, ProductName);
    assert InventoryField(r1, Category) == InventoryField(r2, Category);
    assert InventoryField(r1, TotalPieces) == InventoryField(r2, TotalPieces);
    assert InventoryField(r1, TotalStocks) == InventoryField(r2, TotalStocks);
  }

  /** Two child rows agreeing on every updatable column and on the columns no
      update touches are the same row. */
  lemma KioskRowsEqual(r1: KioskRow, r2: KioskRow)
    requires r1.frozenId == r2.frozenId && r1.totalPiecesUsed == r2.totalPiecesUsed && r1.exist == r2.exist
    requires forall c :: KioskField(r1, c) == KioskField(r2, c)
    ensures r1 == r2
  {
    assert KioskField(r1, ProductName) == KioskField(r2, ProductName);
    assert KioskField(r1, Category) == KioskField(r2, Category);
    assert KioskField(r1, TotalPieces) == KioskField(r2, TotalPieces);
    assert KioskField(r1, TotalStocks) == KioskField(r2, TotalStocks);
    assert KioskField(r1, Price) == KioskField(r2, Price);
    assert KioskField(r1, Picture) == KioskField(r2, Picture);
  }

  /** One `column = ?` entry applied to a parent row. */
  function AssignInventory(row: InventoryRow, a: Assignment): (r: InventoryRow)
    ensures r.exist == row.exist
    ensures forall c :: InventoryField(r, c) ==
                        (if ParentColumn(c) && ColumnOf(a) == c then Some(ParamOf(a)) else InventoryField(row, c))
  {
    match a
    case SetProductName(n) => row.(productName := n)
    case SetCategory(c) => row.(category := c)
    case SetTotalPieces(p) => row.(totalPieces := p)
    case SetTotalStocks(s) => row.(totalStocks := s)
    // never emitted for this table (FrozenSetList names parent columns only)
    case SetPrice(_) => row
    case SetPicture(_) => row
  }

  /** One `column = ?` entry applied to a child row. */
  function AssignKiosk(row: KioskRow, a: Assignment): (r: KioskRow)
    ensures r.frozenId == row.frozenId && r.totalPiecesUsed == row.totalPiecesUsed && r.exist == row.exist
    ensures forall c :: KioskField(r, c) == if ColumnOf(a) == c then Some(ParamOf(a)) else KioskField(row, c)
  {
    match a
    case SetProductName(n) => row.(productName := n)
    case SetCategory(c) => row.(category := c)
    case SetTotalPieces(p) => row.(totalPieces := p)
    case SetTotalStocks(s) => row.(totalStocks := s)
    case SetPrice(p) => row.(price := p)
    case SetPicture(b) => row.(picture := Some(b))
  }

  /** A SET list applied to a parent row: the columns it names take their
      listed values, every other column and the flag keep theirs. */
  function ApplyInventory(row: InventoryRow, a: seq<Assignment>): (r: InventoryRow)
    ensures r.exist == row.exist
    ensures forall c :: InventoryField(r, c) ==
                        (if ParentColumn(c) && Lookup(a, c).Some? then Lookup(a, c) else InventoryField(row, c))
    decreases |a|
  {
    if a == [] then row else ApplyInventory(AssignInventory(row, a[0]), a[1..])
  }

  /** A SET list applied to a child row: the columns it names take their
      listed values; `frozen_id`, `total_pieces_used`, the flag and every
      unnamed column keep theirs. */
  function ApplyKiosk(row: KioskRow, a: seq<Assignment>): (r: KioskRow)
    ensures r.frozenId == row.frozenId && r.totalPiecesUsed == row.totalPiecesUsed && r.exist == row.exist
    ensures forall c :: KioskField(r, c) == if Lookup(a, c).Some? then Lookup(a, c) else KioskField(row, c)
    decreases |a|
  {
    if a == [] then row else ApplyKiosk(AssignKiosk(row, a[0]), a[1..])
  }

  /** Reference meaning of `update_product` on one parent row: every supplied
      field replaced, every other field kept. */
  function UpdatedInventory(row: InventoryRow, u: UpdateFields): InventoryRow {
    row.(productName := u.productName.GetOr(row.productName),
         category := u.category.GetOr(row.category),
         totalPieces := u.totalPieces.GetOr(row.totalPieces),
         totalStocks := u.totalStocks.GetOr(row.totalStocks))
  }

  /** Reference meaning of `update_product` on one child row. */
  function UpdatedKiosk(row: KioskRow, u: UpdateFields): KioskRow {
    row.(productName := u.productName.GetOr(row.productName),
         category := u.category.GetOr(row.category),
         totalPieces := u.totalPieces.GetOr(row.totalPieces),
         totalStocks := u.totalStocks.GetOr(row.totalStocks),
         price := u.price.GetOr(row.price),
         picture := if u.picture.Some? then u.picture else row.picture)
  }

  /** Any SET list that gives each parent column exactly its supplied value
      performs the reference update. */
  lemma ApplyInventoryByLookup(row: InventoryRow, u: UpdateFields, a: seq<Assignment>)
    requires forall c :: ParentColumn(c) ==> Lookup(a, c) == Supplied(u, c)
    ensures ApplyInventory(row, a) == UpdatedInventory(row, u)
  {
    var r, w := ApplyInventory(row, a), UpdatedInventory(row, u);
    forall c ensures InventoryField(r, c) == InventoryField(w, c) {
      if ParentColumn(c) {
        assert Lookup(a, c) == Supplied(u, c);
      }
    }
    InventoryRowsEqual(r, w);
  }

  /** Any SET list that gives each column exactly its supplied value performs
      the reference update. */
  lemma ApplyKioskByLookup(row: KioskRow, u: UpdateFields, a: seq<Assignment>)
    requires forall c :: Lookup(a, c) == Supplied(u, c)
    ensures ApplyKiosk(row, a) == UpdatedKiosk(row, u)
  {
    var r, w := ApplyKiosk(row, a), UpdatedKiosk(row, u);
    forall c ensures KioskField(r, c) == KioskField(w, c) {
      assert Lookup(a, c) == Supplied(u, c);
    }
    KioskRowsEqual(r, w);
  }

  /** Executing the parent SET list is the reference update. */
  lemma FrozenSetListMeaning(row: InventoryRow, u: UpdateFields)
    ensures ApplyInventory(row, FrozenSetList(u)) == UpdatedInventory(row, u)
  {
    forall c | ParentColumn(c) ensures Lookup(FrozenSetList(u), c) == Supplied(u, c) {
      FrozenSetListLookup(u, c);
    }
    ApplyInventoryByLookup(row, u, FrozenSetList(u));
  }

  /** Executing the child SET list is the reference update. */
  lemma KioskSetListMeaning(row: KioskRow, u: UpdateFields)
    ensures ApplyKiosk(row, KioskSetList(u)) == UpdatedKiosk(row, u)
  {
    forall c ensures Lookup(KioskSetList(u), c) == Supplied(u, c) {
      KioskSetListLookup(u, c);
    }
    ApplyKioskByLookup(row, u, KioskSetList(u));
  }
}
