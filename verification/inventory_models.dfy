/** The inventory tables and the automatic stock update a new transaction
    performs. Decimal amounts with two places are integer hundredths. */
module Inventory {
  import opened Wrappers
  import opened Seqs
  import opened Accounts

  type ProductId = nat
  type CategoryId = nat
  type WarehouseId = nat
  type LocationId = nat
  type OrderId = nat

  /** A `Decimal(…, 2)` amount counted in hundredths. */
  type Cents = int

  datatype Category = Category(owner: UserId, name: string, parent: Option<CategoryId>)

  datatype Product = Product(
    owner: UserId,
    name: string,
    sku: string,
    category: Option<CategoryId>,
    costPrice: Cents,
    sellingPrice: Cents,
    lowStockThreshold: int)

  datatype Warehouse = Warehouse(owner: UserId, name: string)

  datatype Location = Location(warehouse: WarehouseId, name: string)

  /** One row of the stock table: the quantity of a product at a location. */
  datatype StockRow = StockRow(product: ProductId, location: LocationId, quantity: Cents)

  datatype TransactionType = In | Out | Move | Adj | Ret

  datatype Transaction = Transaction(
    kind: TransactionType,
    owner: UserId,
    product: ProductId,
    quantity: Cents,
    source: Option<LocationId>,
    destination: Option<LocationId>,
    reference: string)

  datatype OrderType = PO | SO

  datatype OrderStatus = Draft | Confirmed | Completed | Cancelled

  datatype Order = Order(owner: UserId, kind: OrderType, status: OrderStatus, customerName: string)

  /** An order line; `quantity` is a whole number of units. */
  datatype OrderItem = OrderItem(order: OrderId, product: ProductId, quantity: nat, unitPrice: Cents)

  /** The tables the inventory endpoints read and write. Order lines and
      stock rows are kept in insertion order, as the tables list them. */
  datatype Db = Db(
    products: map<ProductId, Product>,
    warehouses: map<WarehouseId, Warehouse>,
    locations: map<LocationId, Location>,
    stock: seq<StockRow>,
    transactions: seq<Transaction>,
    orders: map<OrderId, Order>,
    orderItems: seq<OrderItem>)

  // ---------------------------------------------------------------------
  // Order lines

  function BelongsTo(id: OrderId): OrderItem -> bool {
    (item: OrderItem) => item.order == id
  }

  /** `order.items.all()`: the lines that point at the order, in table order. */
  function ItemsOf(items: seq<OrderItem>, id: OrderId): (r: seq<OrderItem>)
    ensures forall i :: 0 <= i < |r| ==> r[i].order == id
    ensures forall i :: 0 <= i < |items| && items[i].order == id ==> items[i] in r
  {
    Filter(items, BelongsTo(id))
  }

  /** `OrderItem.total_price`: the line's price for all its units. */
  function TotalPrice(item: OrderItem): (r: Cents)
    ensures item.unitPrice >= 0 ==> r >= 0
    ensures item.quantity >= 1 && item.unitPrice >= 0 ==> r >= item.unitPrice
  {
    item.quantity * item.unitPrice
  }

  /** The price of `n` units at `price` each, added up one unit at a time. */
  function UnitsPrice(n: nat, price: Cents): Cents {
    if n == 0 then 0 else price + UnitsPrice(n - 1, price)
  }

  /** A line costs its unit price once for each of its units. */
  lemma {:induction false} TotalPriceIsUnitsPrice(item: OrderItem)
    ensures TotalPrice(item) == UnitsPrice(item.quantity, item.unitPrice)
    decreases item.quantity
  {
    if item.quantity > 0 {
      var fewer := item.(quantity := item.quantity - 1);
      TotalPriceIsUnitsPrice(fewer);
      assert TotalPrice(item) == TotalPrice(fewer) + item.unitPrice;
    }
  }

  // ---------------------------------------------------------------------
  // Stock cells

  predicate IsCell(row: StockRow, p: ProductId, l: LocationId) {
    row.product == p && row.location == l
  }

  /** The position of the (product, location) row, if the table has one.
      The first match is the one a lookup returns. */
  function CellIndex(rows: seq<StockRow>, p: ProductId, l: LocationId): (r: Option<nat>)
    ensures r.Some? ==> r.value < |rows| && IsCell(rows[r.value], p, l)
    ensures r.Some? ==> forall j :: 0 <= j < r.value ==> !IsCell(rows[j], p, l)
    ensures r.None? ==> forall j :: 0 <= j < |rows| ==> !IsCell(rows[j], p, l)
  {
    if |rows| == 0 then None
    else if IsCell(rows[0], p, l) then Some(0)
    else match CellIndex(rows[1..], p, l)
      case None => None
      case Some(i) => Some(i + 1)
  }

  predicate HasCell(rows: seq<StockRow>, p: ProductId, l: LocationId) {
    CellIndex(rows, p, l).Some?
  }

  /** The stock table read as a map from (product, location) to quantity; a
      missing cell reads as the 0 it would be created with. */
  function Quantity(rows: seq<StockRow>, p: ProductId, l: LocationId): Cents {
    match CellIndex(rows, p, l)
    case Some(i) => rows[i].quantity
    case None => 0
  }

  /** The table's unique constraint on (product, location). */
  predicate UniqueCells(rows: seq<StockRow>) {
    forall i, j :: 0 <= i < j < |rows| ==> rows[i].product != rows[j].product || rows[i].location != rows[j].location
  }

  /** The quantity a row contributes to product `p`'s total. */
  function UnitsOf(p: ProductId): StockRow -> int {
    (row: StockRow) => if row.product == p then row.quantity else 0
  }

  /** `get_total_stock`: the sum of the product's quantities over every
      stock row, 0 when it has none. */
  function TotalStock(rows: seq<StockRow>, p: ProductId): Cents {
    SumOf(rows, UnitsOf(p))
  }

  /** A product without stock rows has a total of 0. */
  lemma NoRowsNoStock(rows: seq<StockRow>, p: ProductId)
    requires forall i :: 0 <= i < |rows| ==> rows[i].product != p
    ensures TotalStock(rows, p) == 0
  {
    SumOfZero(rows, UnitsOf(p));
  }

  /** Two tables with the same (product, location) columns locate every
      cell at the same position. */
  lemma {:induction false} SameCellsSameIndex(a: seq<StockRow>, b: seq<StockRow>, p: ProductId, l: LocationId)
    requires |a| == |b|
    requires forall i :: 0 <= i < |a| ==> a[i].product == b[i].product && a[i].location == b[i].location
    ensures CellIndex(a, p, l) == CellIndex(b, p, l)
  {
    if |a| > 0 {
      SameCellsSameIndex(a[1..], b[1..], p, l);
    }
  }

  /** Appending a row only matters for lookups that found nothing before. */
  lemma {:induction false} CellIndexAppend(rows: seq<StockRow>, x: StockRow, p: ProductId, l: LocationId)
    ensures CellIndex(rows + [x], p, l) ==
              if HasCell(rows, p, l) then CellIndex(rows, p, l)
              else if IsCell(x, p, l) then Some(|rows|) else None
  {
    if |rows| > 0 {
      assert (rows + [x])[1..] == rows[1..] + [x];
      CellIndexAppend(rows[1..], x, p, l);
    }
  }

  /** `get_or_create` the (product, location) row at 0, then add `delta`. */
  function Adjust(rows: seq<StockRow>, p: ProductId, l: LocationId, delta: Cents): seq<StockRow> {
    match CellIndex(rows, p, l)
    case Some(i) => rows[i := rows[i].(quantity := rows[i].quantity + delta)]
    case None => rows + [StockRow(p, l, delta)]
  }

  /** Adjusting the cell (`p`, `l`) by `delta` moves that cell's quantity
      by `delta` and no other cell's; afterwards the cell exists, and so
      does every cell that existed before, and no other. */
  lemma AdjustAt(rows: seq<StockRow>, p: ProductId, l: LocationId, delta: Cents, q: ProductId, m: LocationId)
    ensures Quantity(Adjust(rows, p, l, delta), q, m) == Quantity(rows, q, m) + (if q == p && m == l then delta else 0)
    ensures HasCell(Adjust(rows, p, l, delta), q, m) <==> HasCell(rows, q, m) || (q == p && m == l)
  {
    match CellIndex(rows, p, l)
    case Some(i) =>
      SameCellsSameIndex(rows[i := rows[i].(quantity := rows[i].quantity + delta)], rows, q, m);
    case None =>
      CellIndexAppend(rows, StockRow(p, l, delta), q, m);
  }

  /** An adjustment never duplicates a cell. */
  lemma AdjustUnique(rows: seq<StockRow>, p: ProductId, l: LocationId, delta: Cents)
    requires UniqueCells(rows)
    ensures UniqueCells(Adjust(rows, p, l, delta))
  {
  }

  /** After an adjustment the cell exists, and every cell that existed
      still does. */
  lemma AdjustCells(rows: seq<StockRow>, p: ProductId, l: LocationId, delta: Cents)
    ensures HasCell(Adjust(rows, p, l, delta), p, l)
    ensures forall q, m :: HasCell(rows, q, m) ==> HasCell(Adjust(rows, p, l, delta), q, m)
  {
    AdjustAt(rows, p, l, delta, p, l);
    forall q, m | HasCell(rows, q, m)
      ensures HasCell(Adjust(rows, p, l, delta), q, m)
    {
      AdjustAt(rows, p, l, delta, q, m);
    }
  }

  /** Adjusting a cell of `p` moves `p`'s total by the adjustment and no
      other product's total. */
  lemma AdjustTotalAt(rows: seq<StockRow>, p: ProductId, l: LocationId, delta: Cents, q: ProductId)
    ensures TotalStock(Adjust(rows, p, l, delta), q) == TotalStock(rows, q) + (if q == p then delta else 0)
  {
    match CellIndex(rows, p, l)
    case Some(i) =>
      SumOfUpdate(rows, i, rows[i].(quantity := rows[i].quantity + delta), UnitsOf(q));
    case None =>
      SumOfAppend(rows, StockRow(p, l, delta), UnitsOf(q));
  }

  // ---------------------------------------------------------------------
  // Transactions

  /** What a transaction adds to the stock of its product at `l`: its
      quantity in at the destination, out at the source. */
  function NetInflow(tx: Transaction, l: LocationId): Cents {
    (if tx.destination == Some(l) then tx.quantity else 0) - (if tx.source == Some(l) then tx.quantity else 0)
  }

  /** What a transaction adds to its product's total over all locations. */
  function NetInflowTotal(tx: Transaction): Cents {
    (if tx.destination.Some? then tx.quantity else 0) - (if tx.source.Some? then tx.quantity else 0)
  }

  /** `InventoryTransaction.save`: a transaction saved for the first time
      debits its source cell and then credits its destination cell; saving
      one that is already stored (`persisted`) leaves the stock alone. */
  function SaveTransaction(rows: seq<StockRow>, tx: Transaction, persisted: bool): seq<StockRow> {
    if persisted then rows
    else
      var debited := if tx.source.Some? then Adjust(rows, tx.product, tx.source.value, -tx.quantity) else rows;
      if tx.destination.Some? then Adjust(debited, tx.product, tx.destination.value, tx.quantity) else debited
  }

  /** What saving a transaction does to the stock table: nothing when it is
      already stored; otherwise every cell of its product moves by what the
      transaction brings in there less what it takes out. */
  lemma SaveTransactionEffect(rows: seq<StockRow>, tx: Transaction, persisted: bool)
    ensures persisted ==> SaveTransaction(rows, tx, persisted) == rows
    ensures !persisted ==> forall q, m ::
              Quantity(SaveTransaction(rows, tx, persisted), q, m) ==
              Quantity(rows, q, m) + (if q == tx.product then NetInflow(tx, m) else 0)
  {
    if !persisted {
      forall q, m
        ensures Quantity(SaveTransaction(rows, tx, false), q, m) ==
                Quantity(rows, q, m) + (if q == tx.product then NetInflow(tx, m) else 0)
      {
        SaveTransactionAt(rows, tx, q, m);
      }
    }
  }

  /** Saving a new transaction creates the cells it moves stock through
      and keeps every other cell. */
  lemma SaveTransactionCells(rows: seq<StockRow>, tx: Transaction)
    ensures tx.source.Some? ==> HasCell(SaveTransaction(rows, tx, false), tx.product, tx.source.value)
    ensures tx.destination.Some? ==> HasCell(SaveTransaction(rows, tx, false), tx.product, tx.destination.value)
    ensures forall q, m :: HasCell(rows, q, m) ==> HasCell(SaveTransaction(rows, tx, false), q, m)
  {
    var p, n := tx.product, tx.quantity;
    var debited := if tx.source.Some? then Adjust(rows, p, tx.source.value, -n) else rows;
    if tx.source.Some? {
      AdjustCells(rows, p, tx.source.value, -n);
    }
    if tx.destination.Some? {
      AdjustCells(debited, p, tx.destination.value, n);
      assert SaveTransaction(rows, tx, false) == Adjust(debited, p, tx.destination.value, n);
    } else {
      assert SaveTransaction(rows, tx, false) == debited;
    }
  }

  /** Saving a transaction never duplicates a cell. */
  lemma SaveTransactionUnique(rows: seq<StockRow>, tx: Transaction, persisted: bool)
    requires UniqueCells(rows)
    ensures UniqueCells(SaveTransaction(rows, tx, persisted))
  {
    if !persisted {
      var p, n := tx.product, tx.quantity;
      var debited := if tx.source.Some? then Adjust(rows, p, tx.source.value, -n) else rows;
      assert UniqueCells(debited) by {
        if tx.source.Some? {
          AdjustUnique(rows, p, tx.source.value, -n);
        }
      }
      if tx.destination.Some? {
        AdjustUnique(debited, p, tx.destination.value, n);
        assert SaveTransaction(rows, tx, persisted) == Adjust(debited, p, tx.destination.value, n);
      } else {
        assert SaveTransaction(rows, tx, persisted) == debited;
      }
    }
  }

  /** `SaveTransactionEffect` at one cell. */
  lemma SaveTransactionAt(rows: seq<StockRow>, tx: Transaction, q: ProductId, m: LocationId)
    ensures Quantity(SaveTransaction(rows, tx, false), q, m) ==
            Quantity(rows, q, m) + (if q == tx.product then NetInflow(tx, m) else 0)
  {
    var p, n := tx.product, tx.quantity;
    var debited := if tx.source.Some? then Adjust(rows, p, tx.source.value, -n) else rows;
    assert Quantity(debited, q, m) == Quantity(rows, q, m) + (if q == p && tx.source == Some(m) then -n else 0) by {
      if tx.source.Some? {
        AdjustAt(rows, p, tx.source.value, -n, q, m);
      }
    }
    if tx.destination.Some? {
      AdjustAt(debited, p, tx.destination.value, n, q, m);
      assert SaveTransaction(rows, tx, false) == Adjust(debited, p, tx.destination.value, n);
    } else {
      assert SaveTransaction(rows, tx, false) == debited;
    }
  }

  /** Saving a new transaction creates exactly the cells it moves stock
      through that did not exist yet. */
  lemma SaveTransactionHasCell(rows: seq<StockRow>, tx: Transaction, q: ProductId, m: LocationId)
    ensures HasCell(SaveTransaction(rows, tx, false), q, m) <==>
            HasCell(rows, q, m) || (q == tx.product && (tx.source == Some(m) || tx.destination == Some(m)))
  {
    var p, n := tx.product, tx.quantity;
    var debited := if tx.source.Some? then Adjust(rows, p, tx.source.value, -n) else rows;
    assert HasCell(debited, q, m) <==> HasCell(rows, q, m) || (q == p && tx.source == Some(m)) by {
      if tx.source.Some? {
        AdjustAt(rows, p, tx.source.value, -n, q, m);
      }
    }
    if tx.destination.Some? {
      AdjustAt(debited, p, tx.destination.value, n, q, m);
      assert SaveTransaction(rows, tx, false) == Adjust(debited, p, tx.destination.value, n);
    } else {
      assert SaveTransaction(rows, tx, false) == debited;
    }
  }

  /** What a transaction adds to the (q, m) cell. */
  function InflowAt(q: ProductId, m: LocationId): Transaction -> Cents {
    (tx: Transaction) => if tx.product == q then NetInflow(tx, m) else 0
  }

  /** Saving new transactions one after another. */
  function SaveAll(rows: seq<StockRow>, txs: seq<Transaction>): (r: seq<StockRow>)
    ensures forall q, m :: Quantity(r, q, m) == Quantity(rows, q, m) + SumOf(txs, InflowAt(q, m))
    decreases |txs|
  {
    if |txs| == 0 then rows
    else
      SaveTransactionEffect(rows, txs[0], false);
      SaveAll(SaveTransaction(rows, txs[0], false), txs[1..])
  }

  /** Saving a run of transactions keeps the table's cells unique. */
  lemma {:induction false} SaveAllUnique(rows: seq<StockRow>, txs: seq<Transaction>)
    requires UniqueCells(rows)
    ensures UniqueCells(SaveAll(rows, txs))
    decreases |txs|
  {
    if |txs| > 0 {
      SaveTransactionUnique(rows, txs[0], false);
      SaveAllUnique(SaveTransaction(rows, txs[0], false), txs[1..]);
    }
  }

  /** Saving a new transaction moves its product's total by what it brings
      in less what it takes out, and no other product's total. */
  lemma SaveTransactionTotal(rows: seq<StockRow>, tx: Transaction, q: ProductId)
    ensures TotalStock(SaveTransaction(rows, tx, false), q) ==
            TotalStock(rows, q) + (if q == tx.product then NetInflowTotal(tx) else 0)
  {
    var p, n := tx.product, tx.quantity;
    if tx.source.Some? {
      var debited := Adjust(rows, p, tx.source.value, -n);
      AdjustTotalAt(rows, p, tx.source.value, -n, q);
      if tx.destination.Some? {
        AdjustTotalAt(debited, p, tx.destination.value, n, q);
      }
    } else if tx.destination.Some? {
      AdjustTotalAt(rows, p, tx.destination.value, n, q);
    }
  }

  /** A transfer is a debit of its source cell followed by a credit of its
      destination cell, so any sum over the table that those two steps leave
      unchanged is unchanged by the transfer. */
  lemma TransferIsTwoAdjusts(rows: seq<StockRow>, tx: Transaction, f: StockRow -> int)
    requires tx.source.Some? && tx.destination.Some?
    requires SumOf(Adjust(Adjust(rows, tx.product, tx.source.value, -tx.quantity), tx.product, tx.destination.value, tx.quantity), f) ==
             SumOf(rows, f)
    ensures SumOf(SaveTransaction(rows, tx, false), f) == SumOf(rows, f)
  {
  }

  /** A transfer with both a source and a destination moves stock without
      creating or destroying any: the product's total is unchanged. */
  lemma TransferConservesTotal(rows: seq<StockRow>, tx: Transaction)
    requires tx.source.Some? && tx.destination.Some?
    ensures TotalStock(SaveTransaction(rows, tx, false), tx.product) == TotalStock(rows, tx.product)
  {
    SaveTransactionTotal(rows, tx, tx.product);
  }

  // ---------------------------------------------------------------------
  // Per-owner uniqueness

  datatype DbError = IntegrityError

  /** A `unique_together` constraint: no two rows of the table agree on `key`. */
  predicate UniqueTogether<T, K(==)>(table: map<nat, T>, key: T -> K) {
    forall a, b :: a in table && b in table && a != b ==> key(table[a]) != key(table[b])
  }

  /** Inserting a row under a fresh id, refused when it would break the
      table's `unique_together` constraint. */
  function Insert<T, K(==)>(table: map<nat, T>, id: nat, row: T, key: T -> K): (r: Result<map<nat, T>, DbError>)
    requires id !in table
    ensures r.Success? <==> forall a :: a in table ==> key(table[a]) != key(row)
    ensures r.Success? ==> r.value.Keys == table.Keys + {id} && r.value[id] == row
    ensures r.Success? ==> forall a :: a in table ==> r.value[a] == table[a]
    ensures r.Success? && UniqueTogether(table, key) ==> UniqueTogether(r.value, key)
  {
    if exists a :: a in table && key(table[a]) == key(row) then Failure(IntegrityError)
    else Success(table[id := row])
  }

  /** SKUs are unique per owner. */
  function SkuKey(p: Product): (string, UserId) {
    (p.sku, p.owner)
  }

  /** Category names are unique per owner. */
  function CategoryKey(c: Category): (string, UserId) {
    (c.name, c.owner)
  }

  /** A product is refused only because of a product of the same owner with
      the same SKU: another owner's SKUs never get in the way. */
  lemma SkuUniquePerOwner(products: map<nat, Product>, id: nat, p: Product)
    requires id !in products
    ensures Insert(products, id, p, SkuKey).Failure? <==>
              exists a :: a in products && products[a].owner == p.owner && products[a].sku == p.sku
  {
  }

  /** A category is refused only because of a category of the same owner
      with the same name. */
  lemma CategoryNameUniquePerOwner(categories: map<nat, Category>, id: nat, c: Category)
    requires id !in categories
    ensures Insert(categories, id, c, CategoryKey).Failure? <==>
              exists a :: a in categories && categories[a].owner == c.owner && categories[a].name == c.name
  {
  }
}
