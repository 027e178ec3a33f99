/** Item: a line of a cart, a product with a unit price and a quantity.
    The price and the quantity can be changed after construction, and the
    class keeps them positive: the constructor and both setters refuse a
    null, zero or negative value. */
module Items {
  import opened Lang
  import opened BigDecimals
  import opened Products

  class Item {
    const product: Product
    var unitPrice: Decimal
    var quantity: Int32

    /** The invariant every check of the class protects: a price above zero
        (compared by value) and a quantity above zero. */
    ghost predicate Valid()
      reads this
    {
      IsPositive(unitPrice) && quantity > 0
    }

    /** The success path of `new Item(produto, valorUnitario, quantidade)`. */
    constructor (product: Product, unitPrice: Decimal, quantity: Int32)
      requires IsPositive(unitPrice) && quantity > 0
      ensures Valid()
      ensures this.product == product && this.unitPrice == unitPrice && this.quantity == quantity
    {
      this.product := product;
      this.unitPrice := unitPrice;
      this.quantity := quantity;
    }

    /** `new Item(produto, valorUnitario, quantidade)`: throws when the product
        or the price is null, the price is not above zero or the quantity is
        not above zero; otherwise the getters return the arguments. */
    static method New(product: Product?, unitPrice: Option<Decimal>, quantity: Int32)
      returns (r: Result<Item>)
      ensures r.Ok? <==> product != null && unitPrice.Some? && IsPositive(unitPrice.value) && quantity > 0
      ensures r.Err? ==> r.error == IllegalArgument
      ensures r.Ok? ==> fresh(r.value) && r.value.Valid()
      ensures r.Ok? ==> r.value.product == product && r.value.unitPrice == unitPrice.value
                        && r.value.quantity == quantity
    {
      if product == null || unitPrice.None? || CompareTo(unitPrice.value, Zero) <= 0 || quantity <= 0 {
        return Err(IllegalArgument);
      }
      var item := new Item(product, unitPrice.value, quantity);
      return Ok(item);
    }

    /** setValorUnitario: a null or non-positive price throws and changes
        nothing; otherwise only the price changes. */
    method SetUnitPrice(v: Option<Decimal>) returns (r: Outcome)
      requires Valid()
      modifies this`unitPrice
      ensures Valid()
      ensures r == Pass <==> v.Some? && IsPositive(v.value)
      ensures r != Pass ==> r == Fail(IllegalArgument) && unitPrice == old(unitPrice)
      ensures r == Pass ==> unitPrice == v.value
    {
      if v.None? || CompareTo(v.value, Zero) <= 0 {
        return Fail(IllegalArgument);
      }
      unitPrice := v.value;
      return Pass;
    }

    /** setQuantidade: a quantity not above zero throws and changes nothing;
        otherwise only the quantity changes. */
    method SetQuantity(q: Int32) returns (r: Outcome)
      requires Valid()
      modifies this`quantity
      ensures Valid()
      ensures r == Pass <==> q > 0
      ensures r != Pass ==> r == Fail(IllegalArgument) && quantity == old(quantity)
      ensures r == Pass ==> quantity == q
    {
      if q <= 0 {
        return Fail(IllegalArgument);
      }
      quantity := q;
      return Pass;
    }

    /** getValorTotal: price times quantity, exactly. Multiplying by
        BigDecimal.valueOf(quantidade), a scale-0 value, keeps the price's
        scale; under the invariant the subtotal is above zero. */
    function Total(): (t: Decimal)
      reads this
      ensures t.scale == unitPrice.scale
      ensures Value(t) == Value(unitPrice) * quantity as real
      ensures Valid() ==> IsPositive(t)
    {
      var q := ValueOf(quantity as int);
      MultiplyValue(unitPrice, q);
      IsPositiveMeans(unitPrice);
      IsPositiveMeans(Multiply(unitPrice, q));
      PositiveProduct(unitPrice.unscaled, quantity as int);
      Multiply(unitPrice, q)
    }

    /** equals: an item equals itself; any other item equals it exactly when
        the quantities are equal, the products are the same object (Produto
        has no equals of its own) and the prices are BigDecimal.equals, that
        is equal in value AND in scale. */
    function Equals(o: Item?): (r: bool)
      reads this, o
      ensures this == o ==> r
      ensures r <==> o != null && quantity == o.quantity && product == o.product && unitPrice == o.unitPrice
    {
      this == o ||
      (o != null && quantity == o.quantity && product == o.product && unitPrice == o.unitPrice)
    }

    /** hashCode: Objects.hash(produto, valorUnitario, quantidade); the hash
        combination itself is the parameter `hash`. */
    function HashCode(hash: (Product, Decimal, Int32) -> int): int
      reads this
    {
      hash(product, unitPrice, quantity)
    }

    /** The documented equality: the products have the same code, and the
        prices and quantities are equal as in `Equals`. */
    function EqualsByCode(o: Item?): (r: bool)
      reads this, o
      ensures this == o ==> r
      ensures r <==> o != null && quantity == o.quantity && SameProduct(product, o.product)
                     && unitPrice == o.unitPrice
    {
      this == o ||
      (o != null && quantity == o.quantity && SameProduct(product, o.product) && unitPrice == o.unitPrice)
    }

    /** A hash consistent with `EqualsByCode`: it reads the product only
        through its code. */
    function HashCodeByCode(hash: (Option<Long>, Decimal, Int32) -> int): int
      reads this
    {
      hash(product.code, unitPrice, quantity)
    }
  }

  lemma PositiveProduct(x: int, y: int)
    ensures x > 0 && y > 0 ==> x * y > 0
  {
  }

  /** equals is an equivalence relation on items. */
  lemma EqualsIsEquivalence(i: Item, j: Item, k: Item)
    ensures i.Equals(i)
    ensures i.Equals(j) ==> j.Equals(i)
    ensures i.Equals(j) && j.Equals(k) ==> i.Equals(k)
  {
  }

  /** Items that are equal have equal hash codes, whatever the hash
      combination. */
  lemma EqualItemsHashEqually(i: Item, j: Item, hash: (Product, Decimal, Int32) -> int)
    requires i.Equals(j)
    ensures i.HashCode(hash) == j.HashCode(hash)
  {
  }

  /** A price of 1.0 and a price of 1.00 compare equal, yet the two items are
      not equal: BigDecimal.equals sees the scale. */
  lemma PriceScaleMatters(i: Item, j: Item)
    requires i != j && i.product == j.product && i.quantity == j.quantity
    requires i.unitPrice == Decimal(10, 1) && j.unitPrice == Decimal(100, 2)
    ensures CompareTo(i.unitPrice, j.unitPrice) == 0 && Value(i.unitPrice) == Value(j.unitPrice)
    ensures !i.Equals(j)
  {
    CompareToValue(i.unitPrice, j.unitPrice);
  }

  /** The documented equality is weaker than the implemented one: items the
      code calls equal are equal by code too. */
  lemma EqualsImpliesEqualsByCode(i: Item, j: Item)
    ensures i.Equals(j) ==> i.EqualsByCode(j)
  {
  }

  /** Items equal by code have equal code-based hash codes. */
  lemma EqualByCodeHashEqually(i: Item, j: Item, hash: (Option<Long>, Decimal, Int32) -> int)
    requires i.EqualsByCode(j)
    ensures i.HashCodeByCode(hash) == j.HashCodeByCode(hash)
  {
  }

  /** Two products built with the same code, used in two otherwise identical
      items: the documentation calls the products equal, equals does not. */
  method SameCodeItems() returns (i: Item, j: Item)
    ensures SameProduct(i.product, j.product) && i.EqualsByCode(j)
    ensures !i.Equals(j)
  {
    var price := Decimal(250, 2);
    IsPositiveMeans(price);
    var p := new Product("Caneta", Some(7), "Caneta azul");
    var q := new Product("Caneta", Some(7), "Caneta azul");
    i := new Item(p, price, 3);
    j := new Item(q, price, 3);
  }
}
