/** The inventory page's pure helpers: the stock status and category label
    each product row is given, the search box, and the status badge. */
module InventoryPage {
  import opened Wrappers
  import opened Seqs
  import opened Text
  import opened Inventory

  // ---------------------------------------------------------------------
  // Stock status

  datatype StockStatus = InStock | LowStock | OutOfStock

  /** The text the page stores in an item's `status`. */
  function Label(s: StockStatus): string {
    match s
    case InStock => "In Stock"
    case LowStock => "Low Stock"
    case OutOfStock => "Out of Stock"
  }

  /** Reading a `status` string back: the status whose label it is, if any. */
  function StatusOf(text: string): (r: Option<StockStatus>)
    ensures r.Some? ==> Label(r.value) == text
    ensures r.None? ==> forall s: StockStatus :: Label(s) != text
  {
    if text == "In Stock" then Some(InStock)
    else if text == "Low Stock" then Some(LowStock)
    else if text == "Out of Stock" then Some(OutOfStock)
    else None
  }

  /** Each status has its own label, and the label gives the status back. */
  lemma LabelRoundTrip(s: StockStatus, t: StockStatus)
    ensures StatusOf(Label(s)) == Some(s)
    ensures Label(s) == Label(t) ==> s == t
  {
  }

  /** The status of a product row. The total stock arrives in hundredths
      (it is a sum of two-place decimals); the threshold is whole units. */
  function Classify(totalCents: int, threshold: int): (r: StockStatus)
    ensures r == OutOfStock <==> totalCents <= 0
    ensures r == LowStock <==> 0 < totalCents <= threshold * 100
    ensures r == InStock <==> totalCents > 0 && totalCents > threshold * 100
  {
    if totalCents <= 0 then OutOfStock
    else if totalCents <= threshold * 100 then LowStock
    else InStock
  }

  /** How well stocked a status says a product is. */
  function Rank(s: StockStatus): nat {
    match s
    case OutOfStock => 0
    case LowStock => 1
    case InStock => 2
  }

  /** More stock never gives a worse status, and a higher threshold never
      gives a better one. */
  lemma ClassifyMonotone(a: int, b: int, t: int, t': int)
    requires a <= b && t' <= t
    ensures Rank(Classify(a, t)) <= Rank(Classify(b, t'))
  {
  }

  /** A product with no stock rows has a total of 0, so its row reads
      "Out of Stock" whatever its threshold. */
  lemma NoStockRowsOutOfStock(rows: seq<StockRow>, p: ProductId, threshold: int)
    requires forall i :: 0 <= i < |rows| ==> rows[i].product != p
    ensures Label(Classify(TotalStock(rows, p), threshold)) == "Out of Stock"
  {
    NoRowsNoStock(rows, p);
  }

  // ---------------------------------------------------------------------
  // Category label

  const Uncategorized: string := "Uncategorized"
  const CategoryPrefix: string := "Category "

  /** `p.category ? `Category ${p.category}` : "Uncategorized"`: a missing
      category and the id 0 are both falsy. */
  function CategoryLabel(category: Option<CategoryId>): (r: string)
    ensures r == Uncategorized <==> category.None? || category.value == 0
  {
    match category
    case Some(n) =>
      if n == 0 then Uncategorized
      else
        var r := CategoryPrefix + NatToDecimal(n);
        assert r[0] != Uncategorized[0];
        r
    case None => Uncategorized
  }

  /** Reading the category id back out of a label. */
  function CategoryOf(text: string): Option<int> {
    if |text| > |CategoryPrefix| && text[..|CategoryPrefix|] == CategoryPrefix
       && (forall i :: |CategoryPrefix| <= i < |text| ==> IsDigitChar(text[i]))
    then Some(DecimalValue(text[|CategoryPrefix|..]))
    else None
  }

  /** The label of a present category gives its id back; the fallback label
      gives none. */
  lemma CategoryLabelRoundTrip(category: Option<CategoryId>)
    ensures CategoryOf(CategoryLabel(category)) ==
            if category.Some? && category.value != 0 then Some(category.value as int) else None
  {
    match category
    case Some(n) =>
      if n != 0 {
        var text := CategoryLabel(category);
        assert text[..|CategoryPrefix|] == CategoryPrefix;
        assert text[|CategoryPrefix|..] == NatToDecimal(n);
        DecimalRoundTrip(n);
      } else {
        assert Uncategorized[..|CategoryPrefix|] != CategoryPrefix by {
          assert Uncategorized[0] != CategoryPrefix[0];
        }
      }
    case None =>
      assert Uncategorized[..|CategoryPrefix|] != CategoryPrefix by {
        assert Uncategorized[0] != CategoryPrefix[0];
      }
  }

  // ---------------------------------------------------------------------
  // Product rows

  /** The fields of a product as the product list endpoint sends them. */
  datatype ProductData = ProductData(
    id: ProductId,
    name: string,
    sku: string,
    category: Option<CategoryId>,
    totalStock: Cents,
    lowStockThreshold: int)

  /** The fields of a table row that the helpers decide. */
  datatype Item = Item(
    id: ProductId,
    name: string,
    sku: string,
    category: string,
    stock: Cents,
    status: string)

  /** The product list endpoint's data for one product: `total_stock` is the
      sum over its stock rows. */
  function ProductDataOf(id: ProductId, p: Product, rows: seq<StockRow>): (r: ProductData)
    ensures r.totalStock == TotalStock(rows, id)
  {
    ProductData(id, p.name, p.sku, p.category, TotalStock(rows, id), p.lowStockThreshold)
  }

  /** The mapping from a product to a table row. */
  function MapProduct(p: ProductData): (r: Item)
    ensures StatusOf(r.status).Some?
    ensures StatusOf(r.status) == Some(Classify(p.totalStock, p.lowStockThreshold))
    ensures (r.category == Uncategorized) <==> p.category.None? || p.category.value == 0
    ensures r.category == CategoryLabel(p.category)
    ensures r.id == p.id && r.name == p.name && r.sku == p.sku && r.stock == p.totalStock
  {
    Item(p.id, p.name, p.sku, CategoryLabel(p.category), p.totalStock,
         Label(Classify(p.totalStock, p.lowStockThreshold)))
  }

  // ---------------------------------------------------------------------
  // Search

  /** The search box's test: the lower-cased name or SKU contains the
      lower-cased term. */
  predicate Matches(item: Item, term: string) {
    Contains(Lower(item.name), Lower(term)) || Contains(Lower(item.sku), Lower(term))
  }

  function MatchesTerm(term: string): Item -> bool {
    (item: Item) => Matches(item, term)
  }

  /** The rows the table shows for a search term. */
  function Search(items: seq<Item>, term: string): (r: seq<Item>)
    ensures IsSubsequence(r, items)
    ensures forall i :: 0 <= i < |r| ==> r[i] in items && Matches(r[i], term)
    ensures forall i :: 0 <= i < |items| && Matches(items[i], term) ==> items[i] in r
    ensures forall x :: multiset(r)[x] == if Matches(x, term) then multiset(items)[x] else 0
  {
    FilterMultiset(items, MatchesTerm(term));
    Filter(items, MatchesTerm(term))
  }

  /** An empty search box shows every row. */
  lemma EmptySearchKeepsAll(items: seq<Item>)
    ensures Search(items, "") == items
  {
    forall i | 0 <= i < |items|
      ensures Matches(items[i], "")
    {
      ContainsEmpty(Lower(items[i].name));
    }
  }

  /** The search ignores the case the term is typed in. */
  lemma SearchIgnoresCase(items: seq<Item>, term: string)
    ensures Search(items, Lower(term)) == Search(items, term)
    ensures Search(items, Upper(term)) == Search(items, term)
  {
    LowerIdempotent(term);
    LowerOfUpper(term);
    FilterSameTest(items, MatchesTerm(Lower(term)), MatchesTerm(term));
    FilterSameTest(items, MatchesTerm(Upper(term)), MatchesTerm(term));
  }

  /** Typing more into the search box only removes rows. */
  lemma SearchNarrows(items: seq<Item>, term: string, more: string)
    ensures IsSubsequence(Search(items, term + more), Search(items, term))
  {
    LowerAppend(term, more);
    forall i | 0 <= i < |items| && MatchesTerm(term + more)(items[i])
      ensures MatchesTerm(term)(items[i])
    {
      if Contains(Lower(items[i].name), Lower(term) + Lower(more)) {
        ContainsPrefix(Lower(items[i].name), Lower(term), Lower(more));
      } else {
        ContainsPrefix(Lower(items[i].sku), Lower(term), Lower(more));
      }
    }
    FilterNarrower(items, MatchesTerm(term + more), MatchesTerm(term));
  }

  // ---------------------------------------------------------------------
  // Status badge

  const DefaultColor: string := "bg-gray-100 text-gray-700"

  /** `getStatusColor`: the badge classes for a `status` string. */
  function StatusColor(status: string): (r: string)
    ensures r == DefaultColor <==> StatusOf(status).None?
  {
    if status == "In Stock" then "bg-green-100 text-green-700 border-green-200"
    else if status == "Low Stock" then "bg-orange-100 text-orange-700 border-orange-200"
    else if status == "Out of Stock" then "bg-red-100 text-red-700 border-red-200"
    else DefaultColor
  }

  datatype Icon = CheckCircle | ExclamationTriangle | TimesCircle | BoxOpen

  /** `getStatusIcon`: the badge icon for a `status` string. */
  function StatusIcon(status: string): (r: Icon)
    ensures r == BoxOpen <==> StatusOf(status).None?
  {
    if status == "In Stock" then CheckCircle
    else if status == "Low Stock" then ExclamationTriangle
    else if status == "Out of Stock" then TimesCircle
    else BoxOpen
  }

  /** The three statuses get three different colours and icons, none of them
      the default; any other string gets the default. */
  lemma BadgeDistinguishesStatuses(s: StockStatus, t: StockStatus, other: string)
    requires StatusOf(other).None?
    ensures s != t ==> StatusColor(Label(s)) != StatusColor(Label(t))
    ensures s != t ==> StatusIcon(Label(s)) != StatusIcon(Label(t))
    ensures StatusColor(Label(s)) != DefaultColor && StatusIcon(Label(s)) != BoxOpen
    ensures StatusColor(other) == DefaultColor && StatusIcon(other) == BoxOpen
  {
  }

  /** Every row the page builds gets a status badge of its own, never the
      default. */
  lemma MappedRowsHaveBadges(p: ProductData)
    ensures StatusColor(MapProduct(p).status) != DefaultColor
    ensures StatusIcon(MapProduct(p).status) != BoxOpen
  {
    BadgeDistinguishesStatuses(Classify(p.totalStock, p.lowStockThreshold), InStock, "");
  }
}
