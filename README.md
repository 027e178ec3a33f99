# Shopping carts of `br.com.improving.carrinho`, modelled in Dafny

This project models the core of a small Java shopping-cart package:

- `Produto`: an immutable product. Its constructor checks the name and the description. The code is stored unchecked.
- `Item`: a line of a cart. It holds a product, a unit price and a quantity. The constructor and both setters keep the price and the quantity above zero. The class also defines the exact subtotal, `equals` and `hashCode`.
- `CarrinhoComprasFactory`: the registry of carts, a `HashMap` from a customer's identification to that customer's cart.
  - `criar` is get-or-create.
  - `invalidar` removes a cart and says whether there was one.
  - `getValorTicketMedio` is the average cart total, rounded HALF_UP to two decimal places.

`java.math.BigDecimal` is modelled exactly, as an unscaled integer and a scale (`BigDecimals.Decimal`). Its value is `unscaled / 10^scale`. Datatype equality is `BigDecimal.equals`, which sees the scale. `CompareTo` compares values only. Java's exceptions become `Result`/`Outcome` values carrying `IllegalArgument`. A nullable argument is an `Option`, or a nullable reference (`Product?`).

Modules and files:

- `lang.dfy`: `Lang`, the option, result and outcome types.
- `decimal.dfy`: `BigDecimals`. Its operations are `add`, `multiply`, `compareTo`, `valueOf` and `divide(…, scale, HALF_UP)`, each with a lemma on the exact rational value.
- `product.dfy`: `Products`, the `Product` class with `const` fields.
- `item.dfy`: `Items`, the `Item` class. Its price and quantity are mutable fields.
- `ticket.dfy`: `Ticket`, the fold and the rounded average as pure functions over a sequence of totals.
- `registry.dfy`: `Registry`.
  - `CartRegistry` is a class whose `carts` field is a `map<string, Cart>`.
  - `criar` and `invalidar` are methods on that map.
  - `getValorTicketMedio` is a function. The map's iteration order is an explicit parameter, a sequence that lists every key once.

## Model

| member | source | states |
|---|---|---|
| Products.Product.constructor | src/main/java/br/com/improving/carrinho/Produto.java:22-29 | a product built from a non-empty name and description keeps the three arguments as its name, code and description |
| Products.Product.New | src/main/java/br/com/improving/carrinho/Produto.java:22-29 | construction succeeds exactly when both name and description are present and non-empty, whatever the code (null included); a failure is IllegalArgument; on success the product is fresh and its fields, read by getCodigo/getDescricao, are the arguments |
| Products.SameProductIsEquivalence | src/main/java/br/com/improving/carrinho/Produto.java:7-8 | the documented product equality (same code) is reflexive, symmetric and transitive, and identity implies it |
| Items.Item.constructor | src/main/java/br/com/improving/carrinho/Item.java:22-29 | a positive price and quantity give an item that satisfies the invariant and whose getters return the arguments |
| Items.Item.New | src/main/java/br/com/improving/carrinho/Item.java:22-29 | construction succeeds exactly when the product is not null, the price is present and above zero by value, and the quantity is above zero; a failure is IllegalArgument; on success the item is fresh, valid, and holds the arguments |
| Items.Item.SetUnitPrice | src/main/java/br/com/improving/carrinho/Item.java:58-63 | succeeds exactly for a present price above zero, which then becomes the price; otherwise IllegalArgument and the price is unchanged; only the price can change and the invariant is kept |
| Items.Item.SetQuantity | src/main/java/br/com/improving/carrinho/Item.java:65-70 | succeeds exactly for a quantity above zero, which then becomes the quantity; otherwise IllegalArgument and the quantity is unchanged; only the quantity can change and the invariant is kept |
| Items.Item.Total | src/main/java/br/com/improving/carrinho/Item.java:77-79 | the subtotal's value is exactly price times quantity, it has the price's scale, and it is above zero for a valid item |
| Items.Item.Equals | src/main/java/br/com/improving/carrinho/Item.java:81-89 | an item equals itself; it equals another exactly when that one is not null and the quantities are equal, the products are the same object and the prices are equal in value and in scale |
| Items.EqualsIsEquivalence | src/main/java/br/com/improving/carrinho/Item.java:81-89 | equals is reflexive, symmetric and transitive |
| Items.EqualItemsHashEqually | src/main/java/br/com/improving/carrinho/Item.java:91-94 | equal items have equal hash codes, for every combination of the three fields |
| Items.PriceScaleMatters | src/main/java/br/com/improving/carrinho/Item.java:88 | prices 1.0 and 1.00 compare equal and have the same value, yet two items that differ only in them are not equal |
| Items.Item.EqualsByCode | src/main/java/br/com/improving/carrinho/Produto.java:7-8 | the documented item equality: as equals, but the products need only have the same code |
| Items.EqualsImpliesEqualsByCode | src/main/java/br/com/improving/carrinho/Item.java:87 | items the code calls equal are also equal by code |
| Items.EqualByCodeHashEqually | src/main/java/br/com/improving/carrinho/Item.java:91-94 | a hash over the product's code, the price and the quantity agrees with the documented equality |
| Items.SameCodeItems | src/main/java/br/com/improving/carrinho/Item.java:87 | two items over two products with the same code, price and quantity are equal by code but not equal under equals |
| BigDecimals.DecimalEquality | src/main/java/br/com/improving/carrinho/Item.java:88 | two decimals are equal, as BigDecimal.equals, exactly when they have the same value and the same scale |
| BigDecimals.ValueOf | src/main/java/br/com/improving/carrinho/Item.java:78 | BigDecimal.valueOf(n) stands for n exactly, at scale 0 |
| BigDecimals.AddValue | src/main/java/br/com/improving/carrinho/CarrinhoComprasFactory.java:56 | BigDecimal.add is exact: the sum's value is the sum of the values |
| BigDecimals.AddCommutative | src/main/java/br/com/improving/carrinho/CarrinhoComprasFactory.java:56 | add is commutative, scale included |
| BigDecimals.AddAssociative | src/main/java/br/com/improving/carrinho/CarrinhoComprasFactory.java:56 | add is associative, scale included |
| BigDecimals.MultiplyValue | src/main/java/br/com/improving/carrinho/Item.java:78 | BigDecimal.multiply is exact: the product's value is the product of the values |
| BigDecimals.CompareToValue | src/main/java/br/com/improving/carrinho/Item.java:23 | compareTo is negative, zero or positive exactly when the first value is below, equal to or above the second |
| BigDecimals.IsPositiveMeans | src/main/java/br/com/improving/carrinho/Item.java:59 | `compareTo(ZERO) > 0` holds exactly when the unscaled value is positive, and exactly when the value is positive |
| BigDecimals.RoundHalfUpIsHalfUp | src/main/java/br/com/improving/carrinho/CarrinhoComprasFactory.java:43-44 | the integer HALF_UP quotient is within half a unit of the exact quotient, with ties rounded away from zero |
| BigDecimals.HalfUpQuotientUnique | src/main/java/br/com/improving/carrinho/CarrinhoComprasFactory.java:43-44 | at most one integer satisfies the HALF_UP rule for a given quotient |
| BigDecimals.DivideHalfUpValue | src/main/java/br/com/improving/carrinho/CarrinhoComprasFactory.java:59 | divide(b, scale, HALF_UP) gives the exact quotient of the values, times 10^scale, rounded HALF_UP |
| Ticket.SumTotals | src/main/java/br/com/improving/carrinho/CarrinhoComprasFactory.java:54-56 | the fold from ZERO has the largest scale among the totals (0 for none) |
| Ticket.SumTotalsValue | src/main/java/br/com/improving/carrinho/CarrinhoComprasFactory.java:54-56 | the fold's value is the exact sum of the totals' values |
| Ticket.SumTotalsPermutation | src/main/java/br/com/improving/carrinho/CarrinhoComprasFactory.java:54-56 | the fold gives the identical decimal, scale included, for any permutation of the totals |
| Ticket.Average | src/main/java/br/com/improving/carrinho/CarrinhoComprasFactory.java:48-60 | the average always has scale 2, and is 0.00 for no totals |
| Ticket.AverageRounds | src/main/java/br/com/improving/carrinho/CarrinhoComprasFactory.java:59 | for at least one total, the average in cents is the exact mean times 100 rounded HALF_UP |
| Ticket.AverageWithinHalfCent | src/main/java/br/com/improving/carrinho/CarrinhoComprasFactory.java:43-44 | the average is within 0.005 of the exact mean |
| Ticket.AverageOrderIndependent | src/main/java/br/com/improving/carrinho/CarrinhoComprasFactory.java:54-56 | permuted totals give the same average |
| Ticket.AverageOfTwo | src/main/java/br/com/improving/carrinho/CarrinhoComprasFactory.java:53-59 | totals 3.00 and 4.00 average to 3.50 |
| Ticket.AverageTieRoundsUp | src/main/java/br/com/improving/carrinho/CarrinhoComprasFactory.java:43-44 | totals 0.01 and 0.00 average to 0.01: the tie 0.005 rounds up |
| Ticket.AverageRoundsDown | src/main/java/br/com/improving/carrinho/CarrinhoComprasFactory.java:43-44 | totals 0.008 and 0.000 average to 0.00: a mean of 0.004 rounds down |
| Registry.Cart.constructor | src/main/java/br/com/improving/carrinho/CarrinhoComprasFactory.java:36 | a new cart totals zero |
| Registry.CartRegistry.constructor | src/main/java/br/com/improving/carrinho/CarrinhoComprasFactory.java:18-21 | a new registry holds no cart and satisfies its invariant |
| Registry.CartRegistry.Create | src/main/java/br/com/improving/carrinho/CarrinhoComprasFactory.java:31-37 | a null or empty id fails with IllegalArgument and leaves the map unchanged; a present id returns its own cart and leaves the map unchanged; an absent id gets a fresh zero-total cart added under that id alone; no cart is ever shared by two ids |
| Registry.CreateTwice | src/main/java/br/com/improving/carrinho/CarrinhoComprasFactory.java:36 | two criar calls with one id return the identical cart, and the map ends as if only the first call had happened |
| Registry.CartRegistry.Invalidate | src/main/java/br/com/improving/carrinho/CarrinhoComprasFactory.java:70-77 | a null or empty id fails with IllegalArgument and leaves the map unchanged; otherwise the answer is true exactly when the id was present, afterwards the id is absent, and no other entry changes |
| Registry.CartRegistry.TicketAverage | src/main/java/br/com/improving/carrinho/CarrinhoComprasFactory.java:48-60 | the ticket average always has scale 2, and is 0.00 when there is no cart; otherwise it is the fold of the carts' totals (`Totals`, the `.map(getValorTotal)` step of line 55) along the iteration order, divided by the number of carts to two places HALF_UP, whose meaning `TicketAverageMeans` states |
| Registry.TicketAverageMeans | src/main/java/br/com/improving/carrinho/CarrinhoComprasFactory.java:48-60 | the ticket average is the average of the carts' totals; with carts, it is the exact mean rounded HALF_UP to the cent and within 0.005 of it |
| Registry.TicketAverageOrderIndependent | src/main/java/br/com/improving/carrinho/CarrinhoComprasFactory.java:54-56 | every iteration order of the map gives the same ticket average |
| Registry.EnumerationExists | src/main/java/br/com/improving/carrinho/CarrinhoComprasFactory.java:54 | every finite set of ids has an iteration order listing each id once, so the ticket average is defined for every registry |
| Registry.EnumerationsPermute | src/main/java/br/com/improving/carrinho/CarrinhoComprasFactory.java:54 | two iteration orders of the same keys are permutations of each other |

## Left out

- `Main.java`, the console loop, is not part of this model. It is input and output around the core.
- `CarrinhoCompras` is not part of this model. A cart is reduced to its `total`, the one thing the registry reads. Its item policy is not modelled.
- Concurrency: the registry is a plain `HashMap`. The atomicity of `computeIfAbsent` is not modelled.
- Iteration order: a `HashMap` iterates in an order the model does not fix. The order is a parameter of `TicketAverage`, and `TicketAverageOrderIndependent` shows it does not matter.
- Items.Item.HashCode: the concrete values of `Objects.hash` are a library detail. The hash combination is a parameter, and only its consistency with `equals` is stated.
- `toString` (Item.java:96-103) is formatting only and is not modelled.
- Items.Item.Equals takes an `Item?` rather than any `Object`. The `getClass()` comparison against other classes therefore reduces to the null check.
- BigDecimal scales are natural numbers (`scale: nat`), but the source accepts a price of negative scale: the `Item` constructor and `setValorUnitario` take any BigDecimal above zero, such as 1E+3 (unscaled 1, scale -3). For such prices the model loses two things: `Items.Item.Equals` between 1E+3 and 1000 (unequal in Java, by scale), and the negative scale of `Items.Item.Total`. The ticket average does not depend on it: the fold starts at ZERO, of scale 0, so its scale is never negative, and the divide sets scale 2.
- BigDecimal precision is unbounded here, as `add`, `multiply` and a `divide` with an explicit scale are in Java.
- `Long` codes and `int` quantities are bounded newtypes. No arithmetic is done on the code. The quantity only reaches `BigDecimal.valueOf`, which is exact.
- Getters: the fields are read directly, as `getProduto`, `getValorUnitario`, `getQuantidade`, `getCodigo` and `getDescricao` return them unchanged.

## Findings

| source | as written | input that shows it | evidently intended | confidence | as-written member | corrected member |
|---|---|---|---|---|---|---|
| src/main/java/br/com/improving/carrinho/Item.java:87 | `Objects.equals(produto, item.produto)` falls back on identity, since `Produto` defines no `equals` | two `Produto("Caneta", 7L, "Caneta azul")` objects in two items with price 2.50 and quantity 3 | Produto.java:7-8 documents that two products with the same code are equal, so these items would be equal | not executed | Items.SameCodeItems | Items.Item.EqualsByCode |

The corrected equality is consistent with a hash over the product's code (`Items.EqualByCodeHashEqually`). It is implied by the equality as written (`Items.EqualsImpliesEqualsByCode`).
