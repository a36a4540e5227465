/** A menu: a priced entry of a menu group that owns an ordered collection
    of menu products. Its price may never exceed what its products cost. */
module Menus {
  import opened Common
  import opened MenuProducts

  /** The category a menu belongs to. */
  datatype MenuGroup = MenuGroup(id: Option<MenuGroupId>, name: string)

  /** The construction guard: a missing (`null`) or negative price is refused. */
  predicate IsPriceNullOrNegative(price: Option<Money>) {
    price.None? || price.value < 0
  }

  /** Validation of a menu price at construction; zero is an acceptable price. */
  function ValidatedPrice(price: Option<Money>): (r: Result<Money>)
    ensures r.Success? <==> price.Some? && price.value >= 0
    ensures r.Success? ==> price == Some(r.value)
    ensures r.Failure? ==> r.reason == PriceNullOrNegative
  {
    if IsPriceNullOrNegative(price) then Failure(PriceNullOrNegative) else Success(price.value)
  }

  /** The check `addMenuProducts` makes before appending: the price must not be
      strictly greater than the stored total plus the requested total. It
      accepts exactly when the price fits under the total of the collection
      the menu would hold afterwards. */
  function AddCheck(price: Money, existing: seq<MenuProduct>, request: seq<MenuProduct>): (r: Outcome)
    ensures r.Pass? <==> price <= Total(existing + request)
    ensures r.Fail? ==> r.reason == PriceAboveProductsTotal
  {
    TotalAppend(existing, request);
    if price > Total(existing) + Total(request) then Fail(PriceAboveProductsTotal) else Pass
  }

  /** Once the price fits under the stored total, every later batch of
      non-negatively priced products is accepted. */
  lemma LaterBatchesAccepted(price: Money, existing: seq<MenuProduct>, request: seq<MenuProduct>)
    requires price <= Total(existing)
    requires NonNegativePrices(request)
    ensures AddCheck(price, existing, request).Pass?
  {
  }

  /** A non-negative price is accepted at construction with no products at
      all, even though it then exceeds their (zero) total. */
  lemma EmptyMenuSkipsSumCheck(price: Money)
    requires price > 0
    ensures ValidatedPrice(Some(price)).Success?
    ensures price > Total([])
  {
  }

  class Menu {
    var id: Option<MenuId>
    var name: string
    var price: Money
    var menuGroup: MenuGroup
    var menuProducts: seq<MenuProduct>

    /** The object invariant: a stored price is never negative. */
    predicate Valid()
      reads this
    {
      price >= 0
    }

    /** Field initialisation once the price has passed validation. */
    constructor Init(id: Option<MenuId>, name: string, price: Money, menuGroup: MenuGroup, menuProducts: seq<MenuProduct>)
      requires price >= 0
      ensures Valid()
      ensures this.id == id && this.name == name && this.price == price
      ensures this.menuGroup == menuGroup && this.menuProducts == menuProducts
    {
      this.id := id;
      this.name := name;
      this.price := price;
      this.menuGroup := menuGroup;
      this.menuProducts := menuProducts;
    }

    /** The constructor: refuses a null or negative price, otherwise stores
        every argument as given (no price-versus-products check here). */
    static method New(id: Option<MenuId>, name: string, price: Option<Money>, menuGroup: MenuGroup,
                      menuProducts: seq<MenuProduct>) returns (r: Result<Menu>)
      ensures r.ToOutcome() == ValidatedPrice(price).ToOutcome()
      ensures r.Success? ==> fresh(r.value) && r.value.Valid()
      ensures r.Success? ==> r.value.id == id && r.value.name == name && Some(r.value.price) == price
      ensures r.Success? ==> r.value.menuGroup == menuGroup && r.value.menuProducts == menuProducts
    {
      if IsPriceNullOrNegative(price) {
        return Failure(PriceNullOrNegative);
      }
      var m := new Menu.Init(id, name, price.value, menuGroup, menuProducts);
      r := Success(m);
    }

    /** A new, unstored menu with no products; the price is validated but
        not compared with any product total. */
    static method WithEmptyMenuProducts(name: string, price: Option<Money>, menuGroup: MenuGroup)
      returns (r: Result<Menu>)
      ensures r.Success? <==> !IsPriceNullOrNegative(price)
      ensures r.Failure? ==> r.reason == PriceNullOrNegative
      ensures r.Success? ==> fresh(r.value) && r.value.Valid()
      ensures r.Success? ==> r.value.id == None && r.value.name == name && Some(r.value.price) == price
      ensures r.Success? ==> r.value.menuGroup == menuGroup && r.value.menuProducts == []
    {
      r := New(None, name, price, menuGroup, []);
    }

    /** Appends a batch of products, all or nothing: refused when the price is
        above the total of the stored and the requested products, and then
        nothing is appended. On success the price fits under the new total. */
    method AddMenuProducts(request: seq<MenuProduct>) returns (r: Outcome)
      requires Valid()
      modifies this
      ensures Valid()
      ensures r == AddCheck(old(price), old(menuProducts), request)
      ensures menuProducts == if r.Pass? then old(menuProducts) + request else old(menuProducts)
      ensures r.Pass? ==> price <= Total(menuProducts)
      ensures id == old(id) && name == old(name) && price == old(price) && menuGroup == old(menuGroup)
    {
      var requestTotalSum := Total(menuProducts) + Total(request);
      if price > requestTotalSum {
        return Fail(PriceAboveProductsTotal);
      }
      menuProducts := menuProducts + request;
      r := Pass;
    }
  }
}
