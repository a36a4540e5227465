/** A menu product: one (product, quantity) line of a menu. Its fields are
    set only when it is built, so it is a value. */
module MenuProducts {
  import opened Common

  /** The catalogue product a menu product points to; only its price matters here. */
  datatype Product = Product(id: Option<ProductId>, name: string, price: Money)

  /** Non-negative count (the `Quantity` value object keeps it so). */
  type Quantity = nat

  /** `seqNo` (the source's `seq`) is the database key, unset (`None`) until the row is stored.
      Building one stores the arguments as given, with no validation. */
  datatype MenuProduct = MenuProduct(seqNo: Option<MenuProductSeq>, product: Product, quantity: Quantity) {

    /** The line's price: the product's price taken `quantity` times. */
    function TotalPrice(): (r: Money)
      ensures quantity == 0 ==> r == 0
      ensures product.price >= 0 ==> r >= 0
      ensures quantity >= 1 && product.price >= 0 ==> r >= product.price
    {
      product.price * quantity
    }
  }

  /** A menu product that is not yet stored with a menu. */
  function WithoutMenu(product: Product, quantity: Quantity): (r: MenuProduct)
    ensures r.seqNo == None
    ensures r.product == product && r.quantity == quantity
  {
    MenuProduct(None, product, quantity)
  }

  /** Every product of the lines has a non-negative price. */
  predicate NonNegativePrices(items: seq<MenuProduct>) {
    forall i :: 0 <= i < |items| ==> items[i].product.price >= 0
  }

  /** Sum of the lines' total prices (`MenuProducts.getTotalPrice`). */
  function Total(items: seq<MenuProduct>): (r: Money)
    ensures NonNegativePrices(items) ==> r >= 0
    ensures NonNegativePrices(items) ==> forall i :: 0 <= i < |items| ==> items[i].TotalPrice() <= r
  {
    if items == [] then 0 else items[0].TotalPrice() + Total(items[1..])
  }

  /** The total of a concatenation is the sum of the totals. */
  lemma {:induction false} TotalAppend(a: seq<MenuProduct>, b: seq<MenuProduct>)
    ensures Total(a + b) == Total(a) + Total(b)
  {
    if a == [] {
      assert a + b == b;
    } else {
      assert (a + b)[1..] == a[1..] + b;
      TotalAppend(a[1..], b);
    }
  }

  /** Appending lines whose prices are non-negative never lowers the total. */
  lemma TotalGrowsWithAppend(a: seq<MenuProduct>, b: seq<MenuProduct>)
    requires NonNegativePrices(b)
    ensures Total(a + b) >= Total(a)
  {
    TotalAppend(a, b);
  }
}
