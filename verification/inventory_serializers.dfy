/** What the serializers add to the tables: order creation with its nested
    lines, product creation, and the owner field clients cannot write. */
module InventorySerializers {
  import opened Wrappers
  import opened Seqs
  import opened Accounts
  import opened Inventory

  /** One entry of an order submission's `items_data` list. */
  datatype ItemData = ItemData(product: ProductId, quantity: nat, unitPrice: Cents)

  /** An order submission. `owner` is whatever the client sent; `status`
      and `itemsData` may be left out. */
  datatype OrderInput = OrderInput(
    kind: OrderType,
    status: Option<OrderStatus>,
    customerName: string,
    owner: Option<UserId>,
    itemsData: Option<seq<ItemData>>)

  /** One order line per `items_data` entry, each pointing at order `id`. */
  function NewItems(id: OrderId, data: seq<ItemData>): (r: seq<OrderItem>)
    ensures |r| == |data|
    ensures forall i :: 0 <= i < |r| ==>
              r[i] == OrderItem(id, data[i].product, data[i].quantity, data[i].unitPrice)
  {
    seq(|data|, i requires 0 <= i < |data| => OrderItem(id, data[i].product, data[i].quantity, data[i].unitPrice))
  }

  /** `OrderSerializer.create` as the view calls it (`save(owner=user)`):
      the order row is created with the requester as owner and a status of
      DRAFT unless one was sent, then one line per `items_data` entry. */
  function CreateOrder(db: Db, u: UserId, input: OrderInput, id: OrderId): (db': Db)
    requires id !in db.orders
    requires forall i :: 0 <= i < |db.orderItems| ==> db.orderItems[i].order != id
    ensures id in db'.orders && db'.orders[id].owner == u
    ensures db'.orders[id].kind == input.kind && db'.orders[id].customerName == input.customerName
    ensures db'.orders[id].status == input.status.GetOr(Draft)
    ensures db'.orders.Keys == db.orders.Keys + {id}
    ensures forall o :: o in db.orders ==> db'.orders[o] == db.orders[o]
    ensures var data := input.itemsData.GetOr([]);
            var lines := ItemsOf(db'.orderItems, id);
            && |lines| == |data|
            && forall i :: 0 <= i < |data| ==>
                 lines[i].product == data[i].product && lines[i].quantity == data[i].quantity
                 && lines[i].unitPrice == data[i].unitPrice
    ensures forall o :: o != id ==> ItemsOf(db'.orderItems, o) == ItemsOf(db.orderItems, o)
    ensures db'.(orders := db.orders, orderItems := db.orderItems) == db
  {
    var order := Order(u, input.kind, input.status.GetOr(Draft), input.customerName);
    var added := NewItems(id, input.itemsData.GetOr([]));
    var db' := db.(orders := db.orders[id := order], orderItems := db.orderItems + added);
    CreatedLines(db.orderItems, added, id);
    db'
  }

  lemma CreatedLines(existing: seq<OrderItem>, added: seq<OrderItem>, id: OrderId)
    requires forall i :: 0 <= i < |existing| ==> existing[i].order != id
    requires forall i :: 0 <= i < |added| ==> added[i].order == id
    ensures ItemsOf(existing + added, id) == added
    ensures forall o :: o != id ==> ItemsOf(existing + added, o) == ItemsOf(existing, o)
  {
    FilterAppend(existing, added, BelongsTo(id));
    assert Filter(existing, BelongsTo(id)) == [];
    forall o | o != id ensures ItemsOf(existing + added, o) == ItemsOf(existing, o) {
      FilterAppend(existing, added, BelongsTo(o));
      assert Filter(added, BelongsTo(o)) == [];
    }
  }

  /** An order submitted without `items_data` has no lines. */
  lemma OrderWithoutItems(db: Db, u: UserId, input: OrderInput, id: OrderId)
    requires id !in db.orders
    requires forall i :: 0 <= i < |db.orderItems| ==> db.orderItems[i].order != id
    requires input.itemsData.None?
    ensures ItemsOf(CreateOrder(db, u, input, id).orderItems, id) == []
  {
  }

  /** The owner a client sends never reaches the stored order. */
  lemma OrderOwnerReadOnly(db: Db, u: UserId, input: OrderInput, id: OrderId, claimed: Option<UserId>)
    requires id !in db.orders
    requires forall i :: 0 <= i < |db.orderItems| ==> db.orderItems[i].order != id
    ensures CreateOrder(db, u, input, id) == CreateOrder(db, u, input.(owner := claimed), id)
  {
  }

  /** A product submission; `owner` is whatever the client sent and the
      threshold may be left out. */
  datatype ProductInput = ProductInput(
    name: string,
    sku: string,
    category: Option<CategoryId>,
    costPrice: Cents,
    sellingPrice: Cents,
    lowStockThreshold: Option<int>,
    owner: Option<UserId>)

  /** Saving a product submission with the requester as owner (the
      threshold defaults to 10); the SKU must be new among the requester's
      products. */
  function CreateProduct(products: map<ProductId, Product>, u: UserId, input: ProductInput, id: ProductId)
    : (r: Result<map<ProductId, Product>, DbError>)
    requires id !in products
    ensures r.Success? ==> id in r.value && r.value[id].owner == u && r.value[id].sku == input.sku
    ensures r.Success? ==> r.value[id].lowStockThreshold == input.lowStockThreshold.GetOr(10)
    ensures r.Success? ==> r.value.Keys == products.Keys + {id}
    ensures r.Success? ==> forall a :: a in products ==> r.value[a] == products[a]
    ensures r.Failure? <==> exists a :: a in products && products[a].owner == u && products[a].sku == input.sku
  {
    var p := Product(u, input.name, input.sku, input.category, input.costPrice, input.sellingPrice,
                     input.lowStockThreshold.GetOr(10));
    Insert(products, id, p, SkuKey)
  }

  /** The owner a client sends never reaches the stored product. */
  lemma ProductOwnerReadOnly(products: map<ProductId, Product>, u: UserId, input: ProductInput, id: ProductId,
                             claimed: Option<UserId>)
    requires id !in products
    ensures CreateProduct(products, u, input, id) == CreateProduct(products, u, input.(owner := claimed), id)
  {
  }
}
