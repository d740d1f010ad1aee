/** The inventory endpoints: owner scoping of every list and detail query,
    completing an order into stock transactions, and the dashboard figures. */
module InventoryViews {
  import opened Wrappers
  import opened Seqs
  import opened Text
  import opened Http
  import opened Accounts
  import opened Inventory
  import opened InventorySerializers

  // ---------------------------------------------------------------------
  // Owner scoping

  /** `get_queryset` of the owned view sets: the rows the requester owns. */
  function Scope<T>(table: map<nat, T>, ownerOf: T -> UserId, u: UserId): (r: map<nat, T>)
    ensures forall id :: id in r <==> id in table && ownerOf(table[id]) == u
    ensures forall id :: id in r ==> r[id] == table[id]
  {
    map id | id in table && ownerOf(table[id]) == u :: table[id]
  }

  /** Adding a row changes only its owner's scope, and that one only by the
      new row. */
  lemma ScopeInsert<T>(table: map<nat, T>, ownerOf: T -> UserId, id: nat, row: T, v: UserId)
    requires id !in table
    ensures Scope(table[id := row], ownerOf, v) ==
            if ownerOf(row) == v then Scope(table, ownerOf, v)[id := row] else Scope(table, ownerOf, v)
  {
  }

  /** The 404 answer of a scoped lookup. Its text is the one older Django
      REST framework releases give; later ones name the model instead, so
      only the status is meant to be relied on. */
  const NotFound := Response(404, Detail("Not found."))

  /** `get_object` on a scoped query: another owner's row is as missing as
      one that does not exist. */
  function Retrieve<T>(table: map<nat, T>, ownerOf: T -> UserId, u: UserId, id: nat): (r: Result<T, Response>)
    ensures r.Success? <==> id in table && ownerOf(table[id]) == u
    ensures r.Success? ==> r.value == table[id]
    ensures r.Failure? ==> r.error == NotFound
  {
    var mine := Scope(table, ownerOf, u);
    if id in mine then Success(mine[id]) else Failure(NotFound)
  }

  function OrderOwner(o: Order): UserId { o.owner }

  function ProductOwner(p: Product): UserId { p.owner }

  /** Owners are isolated from each other: a product the requester creates
      is found by their own detail lookup, and every other user's product
      list stays exactly as it was. */
  lemma CreateProductIsolation(products: map<ProductId, Product>, u: UserId, input: ProductInput, id: ProductId, v: UserId)
    requires id !in products
    requires CreateProduct(products, u, input, id).Success?
    ensures var after := CreateProduct(products, u, input, id).value;
            Retrieve(after, ProductOwner, u, id) == Success(after[id])
    ensures v != u ==>
              Scope(CreateProduct(products, u, input, id).value, ProductOwner, v) == Scope(products, ProductOwner, v)
  {
    var after := CreateProduct(products, u, input, id).value;
    assert after == products[id := after[id]];
    ScopeInsert(products, ProductOwner, id, after[id], v);
  }

  // ---------------------------------------------------------------------
  // Completing an order

  const AlreadyCompleted := Response(400, Error("Order already completed"))
  const LocationRequired := Response(400, Error("Location ID required"))
  const LocationDenied := Response(403, Error("Invalid location or access denied"))
  const OrderProcessed := Response(200, Status("Order processed and stock updated"))

  /** The location exists and lies in one of the requester's warehouses. */
  predicate LocationOwnedBy(db: Db, l: int, u: UserId) {
    && l >= 0
    && l in db.locations
    && db.locations[l].warehouse in db.warehouses
    && db.warehouses[db.locations[l].warehouse].owner == u
  }

  /** The change, in hundredths, that `units` whole units of an order make
      to a cell: added for a purchase order, removed for a sales order. */
  function Delta(kind: OrderType, units: int): Cents {
    if kind == PO then 100 * units else -100 * units
  }

  lemma DeltaAdd(kind: OrderType, a: int, b: int)
    ensures Delta(kind, a + b) == Delta(kind, a) + Delta(kind, b)
  {
  }

  /** The transaction an order line becomes: IN to the location for a
      purchase order, OUT of it for a sales order, for the line's units
      (whole units, so hundredths are units times 100). */
  function LineTransaction(item: OrderItem, kind: OrderType, u: UserId, l: LocationId, id: OrderId): (tx: Transaction)
    ensures tx.product == item.product && tx.owner == u && tx.quantity == 100 * item.quantity
    ensures NetInflow(tx, l) == Delta(kind, item.quantity)
    ensures forall m :: m != l ==> NetInflow(tx, m) == 0
    ensures tx.kind == Out <==> kind == SO
  {
    if kind == PO then Transaction(In, u, item.product, 100 * item.quantity, None, Some(l), "Order #" + NatToDecimal(id))
    else Transaction(Out, u, item.product, 100 * item.quantity, Some(l), None, "Order #" + NatToDecimal(id))
  }

  /** The units of product `p` on an order line. */
  function LineUnits(p: ProductId): OrderItem -> int {
    (item: OrderItem) => if item.product == p then item.quantity else 0
  }

  /** The transactions an order's lines become, one per line, in order. */
  function LineTransactions(items: seq<OrderItem>, kind: OrderType, u: UserId, l: LocationId, id: OrderId): (r: seq<Transaction>)
    ensures |r| == |items|
    ensures forall i :: 0 <= i < |items| ==> r[i] == LineTransaction(items[i], kind, u, l, id)
    decreases |items|
  {
    if |items| == 0 then [] else [LineTransaction(items[0], kind, u, l, id)] + LineTransactions(items[1..], kind, u, l, id)
  }

  /** What an order's lines do to the (q, m) cell when they are posted at
      location `l`. */
  function LinesEffect(items: seq<OrderItem>, kind: OrderType, l: LocationId, q: ProductId, m: LocationId): Cents {
    if m == l then Delta(kind, SumOf(items, LineUnits(q))) else 0
  }

  /** The lines' effect is the first line's plus the rest's. */
  lemma LinesEffectStep(items: seq<OrderItem>, kind: OrderType, l: LocationId, q: ProductId, m: LocationId)
    requires |items| > 0
    ensures LinesEffect(items, kind, l, q, m) ==
            (if m == l && q == items[0].product then Delta(kind, items[0].quantity) else 0)
            + LinesEffect(items[1..], kind, l, q, m)
  {
    DeltaAdd(kind, LineUnits(q)(items[0]), SumOf(items[1..], LineUnits(q)));
  }

  /** Saving an order's line transactions at `l` moves each cell of `l` by
      the order's units of that product, and no other cell. */
  lemma {:induction false} LinesInflow(items: seq<OrderItem>, kind: OrderType, u: UserId, l: LocationId, id: OrderId,
                                       q: ProductId, m: LocationId)
    ensures SumOf(LineTransactions(items, kind, u, l, id), InflowAt(q, m)) == LinesEffect(items, kind, l, q, m)
    decreases |items|
  {
    if |items| > 0 {
      var txs := LineTransactions(items, kind, u, l, id);
      assert txs[1..] == LineTransactions(items[1..], kind, u, l, id);
      LinesInflow(items[1..], kind, u, l, id, q, m);
      LinesEffectStep(items, kind, l, q, m);
    }
  }

  /** `complete_order`. `locationId` is the request's `location_id`: absent
      (`None`) or 0 counts as missing, as Python's truth test has it. */
  function CompleteOrder(db: Db, u: UserId, id: OrderId, locationId: Option<int>): (out: (Response, Db))
    ensures out.0 != OrderProcessed ==> out.1 == db
    ensures out.0 == OrderProcessed ==> id in out.1.orders && out.1.orders[id].status == Completed
  {
    match Retrieve(db.orders, OrderOwner, u, id)
    case Failure(e) => (e, db)
    case Success(order) =>
      if order.status == Completed then (AlreadyCompleted, db)
      else if locationId.None? || locationId.value == 0 then (LocationRequired, db)
      else if !LocationOwnedBy(db, locationId.value, u) then (LocationDenied, db)
      else
        var txs := LineTransactions(ItemsOf(db.orderItems, id), order.kind, u, locationId.value, id);
        (OrderProcessed, db.(stock := SaveAll(db.stock, txs), transactions := db.transactions + txs,
                             orders := db.orders[id := order.(status := Completed)]))
  }

  /** The order exists and belongs to the requester. */
  predicate OwnsOrder(db: Db, u: UserId, id: OrderId) {
    id in db.orders && db.orders[id].owner == u
  }

  /** What a processed request did: the order was the requester's, not yet
      completed, the location was theirs, and the order's lines were posted
      there before the order was marked completed. */
  lemma CompleteOrderProcessed(db: Db, u: UserId, id: OrderId, l: LocationId)
    requires CompleteOrder(db, u, id, Some(l)).0 == OrderProcessed
    ensures OwnsOrder(db, u, id) && db.orders[id].status != Completed && l != 0 && LocationOwnedBy(db, l, u)
    ensures var txs := LineTransactions(ItemsOf(db.orderItems, id), db.orders[id].kind, u, l, id);
            CompleteOrder(db, u, id, Some(l)).1 ==
              db.(stock := SaveAll(db.stock, txs), transactions := db.transactions + txs,
                  orders := db.orders[id := db.orders[id].(status := Completed)])
  {
  }

  /** Which requests are refused, and with what: nothing changes for any of
      them. DRAFT, CONFIRMED and CANCELLED orders are all accepted. */
  lemma CompleteOrderRefusals(db: Db, u: UserId, id: OrderId, locationId: Option<int>)
    ensures !OwnsOrder(db, u, id) ==> CompleteOrder(db, u, id, locationId) == (NotFound, db)
    ensures OwnsOrder(db, u, id) && db.orders[id].status == Completed ==>
              CompleteOrder(db, u, id, locationId) == (AlreadyCompleted, db)
    ensures OwnsOrder(db, u, id) && db.orders[id].status != Completed && locationId in {None, Some(0)} ==>
              CompleteOrder(db, u, id, locationId) == (LocationRequired, db)
    ensures OwnsOrder(db, u, id) && db.orders[id].status != Completed && locationId !in {None, Some(0)} ==>
              (CompleteOrder(db, u, id, locationId) == (LocationDenied, db) <==> !LocationOwnedBy(db, locationId.value, u))
    ensures OwnsOrder(db, u, id) && db.orders[id].status != Completed && locationId !in {None, Some(0)} ==>
              (CompleteOrder(db, u, id, locationId).0 == OrderProcessed <==> LocationOwnedBy(db, locationId.value, u))
  {
  }

  /** A completed order cannot be completed again: the second call is
      refused with 400 and changes nothing. */
  lemma CompleteOrderOnce(db: Db, u: UserId, id: OrderId, locationId: Option<int>, locationId': Option<int>)
    requires CompleteOrder(db, u, id, locationId).0 == OrderProcessed
    ensures var db' := CompleteOrder(db, u, id, locationId).1;
            CompleteOrder(db', u, id, locationId') == (AlreadyCompleted, db')
  {
  }

  /** The stock effect of completing an order: at the given location every
      product gains (purchase order) or loses (sales order) the units its
      lines carry; every other cell is unchanged. */
  lemma CompleteOrderStock(db: Db, u: UserId, id: OrderId, l: LocationId, q: ProductId, m: LocationId)
    requires CompleteOrder(db, u, id, Some(l)).0 == OrderProcessed
    ensures var db' := CompleteOrder(db, u, id, Some(l)).1;
            var units := SumOf(ItemsOf(db.orderItems, id), LineUnits(q));
            Quantity(db'.stock, q, m) == Quantity(db.stock, q, m)
              + (if m == l then Delta(db.orders[id].kind, units) else 0)
  {
    CompleteOrderProcessed(db, u, id, l);
    LinesInflow(ItemsOf(db.orderItems, id), db.orders[id].kind, u, l, id, q, m);
  }

  // ---------------------------------------------------------------------
  // Dashboard

  /** The figures `dashboard_stats` reports. Valuation multiplies two
      hundredths, so it is counted in ten-thousandths; items sold is in
      hundredths. */
  datatype Stats = Stats(totalProducts: nat, lowStockAlert: nat, inventoryValuation: int, itemsSoldPeriod: Cents)

  function OwnedProducts(db: Db, u: UserId): set<ProductId> {
    Scope(db.products, ProductOwner, u).Keys
  }

  /** A stock row at or below its product's threshold. */
  predicate IsLowRow(db: Db, row: StockRow) {
    row.product in db.products && row.quantity <= 100 * db.products[row.product].lowStockThreshold
  }

  /** The requester's products with at least one stock row at or below the
      threshold, each once (`.distinct()`): the `low_stock` action's list and
      the dashboard's `low_stock_alert` count. */
  function LowStock(db: Db, u: UserId): (r: set<ProductId>)
    ensures r <= OwnedProducts(db, u)
    ensures forall p :: p in r <==>
              p in OwnedProducts(db, u) && exists i :: 0 <= i < |db.stock| && db.stock[i].product == p && IsLowRow(db, db.stock[i])
  {
    set p | p in OwnedProducts(db, u) && exists i :: 0 <= i < |db.stock| && db.stock[i].product == p && IsLowRow(db, db.stock[i])
  }

  /** The (`p`, `l`) cell exists and holds at most the product's threshold. */
  predicate IsLowCell(db: Db, p: ProductId, l: LocationId) {
    p in db.products && HasCell(db.stock, p, l) && Quantity(db.stock, p, l) <= 100 * db.products[p].lowStockThreshold
  }

  /** The low-stock list read through the cells: while cells are unique, a
      product is listed exactly when it is the requester's and one of its
      cells is at or below the threshold. */
  lemma LowStockByCells(db: Db, u: UserId, p: ProductId)
    requires UniqueCells(db.stock)
    ensures p in LowStock(db, u) <==> p in OwnedProducts(db, u) && exists l :: IsLowCell(db, p, l)
  {
    if p in LowStock(db, u) {
      var i :| 0 <= i < |db.stock| && db.stock[i].product == p && IsLowRow(db, db.stock[i]);
      var l := db.stock[i].location;
      var j := CellIndex(db.stock, p, l);
      assert j == Some(i) by {
        assert IsCell(db.stock[i], p, l);
      }
      assert IsLowCell(db, p, l);
    }
    if p in OwnedProducts(db, u) && exists l :: IsLowCell(db, p, l) {
      var l :| IsLowCell(db, p, l);
      var j := CellIndex(db.stock, p, l).value;
      assert db.stock[j].product == p && IsLowRow(db, db.stock[j]);
    }
  }

  /** Saving a new transaction can only add or remove its own product from
      the low-stock list. */
  lemma SaveTransactionLowStockOthers(db: Db, u: UserId, tx: Transaction, q: ProductId)
    requires UniqueCells(db.stock)
    requires q != tx.product
    ensures q in LowStock(db.(stock := SaveTransaction(db.stock, tx, false)), u) <==> q in LowStock(db, u)
  {
    var db' := db.(stock := SaveTransaction(db.stock, tx, false));
    SaveTransactionUnique(db.stock, tx, false);
    forall l
      ensures IsLowCell(db', q, l) <==> IsLowCell(db, q, l)
    {
      SaveTransactionAt(db.stock, tx, q, l);
      SaveTransactionHasCell(db.stock, tx, q, l);
    }
    LowStockByCells(db, u, q);
    LowStockByCells(db', u, q);
  }

  /** A new transaction that leaves a cell of one of the requester's
      products at or below the threshold puts the product on the list. */
  lemma SaveTransactionMarksLow(db: Db, u: UserId, tx: Transaction, l: LocationId)
    requires UniqueCells(db.stock)
    requires tx.product in OwnedProducts(db, u)
    requires tx.source == Some(l) || tx.destination == Some(l)
    requires Quantity(db.stock, tx.product, l) + NetInflow(tx, l) <= 100 * db.products[tx.product].lowStockThreshold
    ensures tx.product in LowStock(db.(stock := SaveTransaction(db.stock, tx, false)), u)
  {
    var db' := db.(stock := SaveTransaction(db.stock, tx, false));
    SaveTransactionUnique(db.stock, tx, false);
    SaveTransactionAt(db.stock, tx, tx.product, l);
    SaveTransactionHasCell(db.stock, tx, tx.product, l);
    assert IsLowCell(db', tx.product, l);
    LowStockByCells(db', u, tx.product);
  }

  /** What a stock row adds to the requester's valuation. */
  function RowValue(products: map<ProductId, Product>, u: UserId): StockRow -> int {
    (row: StockRow) =>
      if row.product in products && products[row.product].owner == u
      then row.quantity * products[row.product].costPrice else 0
  }

  /** What a transaction adds to the requester's items sold. */
  function SoldUnits(u: UserId): Transaction -> int {
    (tx: Transaction) => if tx.owner == u && tx.kind == Out then tx.quantity else 0
  }

  /** The dashboard's `inventory_valuation`: quantity times cost price over
      the requester's stock rows. */
  function Valuation(db: Db, u: UserId): int {
    SumOf(db.stock, RowValue(db.products, u))
  }

  /** The dashboard's `items_sold_period`: the quantities of the requester's
      OUT transactions. */
  function ItemsSold(db: Db, u: UserId): int {
    SumOf(db.transactions, SoldUnits(u))
  }

  function DashboardStats(db: Db, u: UserId): (s: Stats)
    ensures s.lowStockAlert <= s.totalProducts
  {
    LowStockAtMostOwned(db, u);
    Stats(|OwnedProducts(db, u)|, |LowStock(db, u)|, Valuation(db, u), ItemsSold(db, u))
  }

  lemma LowStockAtMostOwned(db: Db, u: UserId)
    ensures |LowStock(db, u)| <= |OwnedProducts(db, u)|
  {
    var low, owned := LowStock(db, u), OwnedProducts(db, u);
    assert owned == low + (owned - low);
  }

  /** A product without stock rows is never counted as low, whatever its
      threshold. */
  lemma NoRowsNotLow(db: Db, u: UserId, p: ProductId)
    requires forall i :: 0 <= i < |db.stock| ==> db.stock[i].product != p
    ensures p !in LowStock(db, u)
  {
  }

  /** With no OUT transactions of the requester, items sold is 0. */
  lemma NoSalesNoItemsSold(db: Db, u: UserId)
    requires forall i :: 0 <= i < |db.transactions| ==>
               db.transactions[i].owner != u || db.transactions[i].kind != Out
    ensures ItemsSold(db, u) == 0
  {
    SumOfZero(db.transactions, SoldUnits(u));
  }

  /** Adjusting one cell moves the valuation by the adjustment times the
      product's cost price, when the product is the requester's. */
  lemma AdjustValuation(db: Db, u: UserId, rows: seq<StockRow>, p: ProductId, l: LocationId, delta: Cents)
    ensures SumOf(Adjust(rows, p, l, delta), RowValue(db.products, u)) ==
            SumOf(rows, RowValue(db.products, u)) + ValueChange(db, u, p, delta)
  {
    var f := RowValue(db.products, u);
    match CellIndex(rows, p, l)
    case Some(i) =>
      var row := rows[i];
      SumOfUpdate(rows, i, row.(quantity := row.quantity + delta), f);
      if p in db.products && db.products[p].owner == u {
        var c := db.products[p].costPrice;
        assert (row.quantity + delta) * c == row.quantity * c + delta * c;
      }
    case None =>
      SumOfAppend(rows, StockRow(p, l, delta), f);
  }

  /** What adjusting a cell of product `p` by `delta` does to the valuation. */
  function ValueChange(db: Db, u: UserId, p: ProductId, delta: Cents): int {
    if p in db.products && db.products[p].owner == u then delta * db.products[p].costPrice else 0
  }

  lemma ValueChangeCancels(db: Db, u: UserId, p: ProductId, q: Cents)
    ensures ValueChange(db, u, p, -q) + ValueChange(db, u, p, q) == 0
  {
    if p in db.products && db.products[p].owner == u {
      var c := db.products[p].costPrice;
      assert (-q) * c == -(q * c);
    }
  }

  /** Taking `q` out of one cell of a product and putting it into another
      leaves the valuation unchanged. */
  lemma MoveKeepsValuation(db: Db, u: UserId, rows: seq<StockRow>, p: ProductId, from: LocationId, to: LocationId, q: Cents)
    ensures SumOf(Adjust(Adjust(rows, p, from, -q), p, to, q), RowValue(db.products, u)) ==
            SumOf(rows, RowValue(db.products, u))
  {
    AdjustValuation(db, u, rows, p, from, -q);
    AdjustValuation(db, u, Adjust(rows, p, from, -q), p, to, q);
    ValueChangeCancels(db, u, p, q);
  }

  /** Moving stock between two locations leaves the valuation unchanged. */
  lemma TransferKeepsValuation(db: Db, u: UserId, tx: Transaction)
    requires tx.source.Some? && tx.destination.Some?
    ensures Valuation(db.(stock := SaveTransaction(db.stock, tx, false)), u) == Valuation(db, u)
  {
    MoveKeepsValuation(db, u, db.stock, tx.product, tx.source.value, tx.destination.value, tx.quantity);
    TransferIsTwoAdjusts(db.stock, tx, RowValue(db.products, u));
  }

  /** Completing a sales order adds its units (in hundredths) to the
      requester's items sold; completing a purchase order adds nothing. */
  lemma CompleteOrderItemsSold(db: Db, u: UserId, id: OrderId, l: LocationId)
    requires CompleteOrder(db, u, id, Some(l)).0 == OrderProcessed
    ensures var db' := CompleteOrder(db, u, id, Some(l)).1;
            var lines := ItemsOf(db.orderItems, id);
            ItemsSold(db', u) ==
              ItemsSold(db, u)
              + (if db.orders[id].kind == SO then 100 * SumOf(lines, AllUnits) else 0)
  {
    CompleteOrderProcessed(db, u, id, l);
    var lines := ItemsOf(db.orderItems, id);
    SumOfConcat(db.transactions, LineTransactions(lines, db.orders[id].kind, u, l, id), SoldUnits(u));
    SoldUnitsOfLines(lines, db.orders[id].kind, u, l, id);
  }

  /** The units on an order line. */
  function AllUnits(item: OrderItem): int {
    item.quantity
  }

  /** The lines of a sales order add their units (in hundredths) to items
      sold; those of a purchase order add nothing. */
  lemma {:induction false} SoldUnitsOfLines(lines: seq<OrderItem>, kind: OrderType, u: UserId, l: LocationId, id: OrderId)
    ensures SumOf(LineTransactions(lines, kind, u, l, id), SoldUnits(u)) ==
            if kind == SO then 100 * SumOf(lines, AllUnits) else 0
  {
    if |lines| > 0 {
      SoldUnitsOfLines(lines[1..], kind, u, l, id);
      assert LineTransactions(lines, kind, u, l, id)[1..] == LineTransactions(lines[1..], kind, u, l, id);
    }
  }
}
