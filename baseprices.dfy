/** Base-price selection in `PriceController`: the value taken from a D365 price,
    the join of a batch of products with the prices returned for it, and the ids
    whose price must be asked for again. */
module BasePrices {
  import opened Wrappers
  import opened Money
  import opened ScopeExpansion

  /** The parts of a D365 `ProductPrice` the join reads (nullable decimals). */
  datatype ProductPrice = ProductPrice(ProductId: int, TradeAgreementPrice: Option<real>, BasePrice: Option<real>)

  /** The parts of a `ProductBlob` the join reads. */
  datatype ProductBlob = ProductBlob(Id: int, SKU: string, UOM: string, CategoryId: int)

  /** The price `GetBasePriceValue` rounds: the trade-agreement price when it is
      positive, else the base price, a missing value counting as zero. */
  function ChosenPrice(price: ProductPrice): (chosen: real)
    ensures price.TradeAgreementPrice.GetOr(0.0) > 0.0 ==> chosen == price.TradeAgreementPrice.value
    ensures price.TradeAgreementPrice.GetOr(0.0) <= 0.0 ==> chosen == price.BasePrice.GetOr(0.0)
    ensures chosen > 0.0 <==> price.TradeAgreementPrice.GetOr(0.0) > 0.0 || price.BasePrice.GetOr(0.0) > 0.0
    ensures chosen == price.TradeAgreementPrice.GetOr(0.0) || chosen == price.BasePrice.GetOr(0.0)
  {
    var result := price.TradeAgreementPrice.GetOr(0.0);
    if result <= 0.0 then price.BasePrice.GetOr(0.0) else result
  }

  /** `GetBasePriceValue`: the chosen price rounded to whole cents, half to even. */
  function BasePriceValue(price: ProductPrice): (value: real)
    ensures IsCents(value)
    ensures -0.005 <= value - ChosenPrice(price) <= 0.005
  {
    RoundCents(ChosenPrice(price))
  }

  /** A chosen price already in whole cents is taken as it is. */
  lemma BasePriceValueKeepsCents(price: ProductPrice)
    requires IsCents(ChosenPrice(price))
    ensures BasePriceValue(price) == ChosenPrice(price)
  {
    RoundCentsKeepsCents(ChosenPrice(price));
  }

  /** A positive trade-agreement price always wins over the base price. */
  lemma TradeAgreementWins(price: ProductPrice, other: Option<real>)
    requires price.TradeAgreementPrice.Some? && price.TradeAgreementPrice.value > 0.0
    ensures BasePriceValue(price.(BasePrice := other)) == BasePriceValue(price)
  {
  }

  /** `productPrices.FirstOrDefault(filter => filter.ProductId == id)`. */
  function FirstPrice(prices: seq<ProductPrice>, id: int): Option<ProductPrice>
  {
    if prices == [] then None
    else if prices[0].ProductId == id then Some(prices[0])
    else FirstPrice(prices[1..], id)
  }

  /** `FirstPrice` finds the first price of the product, and nothing only when the
      product has no price. */
  lemma {:induction false} FirstPriceExactly(prices: seq<ProductPrice>, id: int)
    ensures FirstPrice(prices, id).None? <==> forall p | p in prices :: p.ProductId != id
    ensures FirstPrice(prices, id).Some? ==>
      exists i :: 0 <= i < |prices| && prices[i] == FirstPrice(prices, id).value && prices[i].ProductId == id
                  && forall j :: 0 <= j < i ==> prices[j].ProductId != id
  {
    if prices != [] && prices[0].ProductId != id {
      FirstPriceExactly(prices[1..], id);
      if FirstPrice(prices, id).Some? {
        var i :| 0 <= i < |prices[1..]| && prices[1..][i] == FirstPrice(prices, id).value && prices[1..][i].ProductId == id
                 && forall j :: 0 <= j < i ==> prices[1..][j].ProductId != id;
        assert prices[i + 1] == prices[1..][i];
        assert forall j :: 1 <= j < i + 1 ==> prices[j] == prices[1..][j - 1];
      }
      assert forall p | p in prices[1..] :: p in prices;
      assert forall p | p in prices :: p == prices[0] || p in prices[1..];
    }
  }

  /** The `ProductPriceItem` made of a product and its price. */
  function PriceItem(product: ProductBlob, price: ProductPrice): PricedProduct {
    PricedProduct(product.Id, product.SKU, BasePriceValue(price), product.UOM, product.CategoryId)
  }

  /** The items the batch loop of `FetchBasePrices` adds, in batch order. */
  function BatchItems(batch: seq<ProductBlob>, prices: seq<ProductPrice>): seq<PricedProduct>
    decreases |batch|
  {
    if batch == [] then []
    else
      var product := batch[|batch| - 1];
      BatchItems(batch[..|batch| - 1], prices)
      + match FirstPrice(prices, product.Id)
        case Some(price) => [PriceItem(product, price)]
        case None => []
  }

  /** The loop of `FetchBasePrices` over one batch and the prices returned for it. */
  method JoinBatch(batch: seq<ProductBlob>, productPrices: seq<ProductPrice>) returns (items: seq<PricedProduct>)
    ensures items == BatchItems(batch, productPrices)
  {
    items := [];
    for j := 0 to |batch|
      invariant items == BatchItems(batch[..j], productPrices)
    {
      var product := batch[j];
      var price := FirstPrice(productPrices, product.Id);
      assert batch[..j + 1][..j] == batch[..j];
      if price.Some? {
        items := items + [PriceItem(product, price.value)];
      } else {
        assert items + [] == items;
      }
    }
    assert batch[..|batch|] == batch;
  }

  /** A product of the batch gets an item exactly when some price carries its id; the
      item copies its SKU, UOM, category and id, and takes the value of its first
      price. Nothing else is added. */
  lemma {:induction false} BatchItemsExactly(batch: seq<ProductBlob>, prices: seq<ProductPrice>)
    ensures |BatchItems(batch, prices)| <= |batch|
    ensures forall product | product in batch && FirstPrice(prices, product.Id).Some? ::
      PriceItem(product, FirstPrice(prices, product.Id).value) in BatchItems(batch, prices)
    ensures forall item | item in BatchItems(batch, prices) ::
      exists product :: product in batch && FirstPrice(prices, product.Id).Some?
                        && item == PriceItem(product, FirstPrice(prices, product.Id).value)
    decreases |batch|
  {
    if batch != [] {
      var init, last := batch[..|batch| - 1], batch[|batch| - 1];
      assert batch == init + [last];
      BatchItemsExactly(init, prices);
    }
  }

  /** `productBatch.Where(pb => !results.Any(pp => pb == pp.ProductId))`. */
  function MissingIds(ids: seq<int>, results: seq<ProductPrice>): seq<int>
    decreases |ids|
  {
    if ids == [] then []
    else
      MissingIds(ids[..|ids| - 1], results)
      + (if exists p | p in results :: p.ProductId == ids[|ids| - 1] then [] else [ids[|ids| - 1]])
  }

  /** The missing ids are exactly the batch ids no result carries, in batch order. */
  lemma {:induction false} MissingIdsExactly(ids: seq<int>, results: seq<ProductPrice>)
    ensures forall id :: id in MissingIds(ids, results) <==> id in ids && forall p | p in results :: p.ProductId != id
    ensures |MissingIds(ids, results)| <= |ids|
    ensures (exists p | p in results :: p.ProductId in ids) ==> |MissingIds(ids, results)| < |ids|
    ensures forall x :: multiset(MissingIds(ids, results))[x]
                        == if forall p | p in results :: p.ProductId != x then multiset(ids)[x] else 0
    ensures forall n | 0 <= n <= |ids| :: MissingIds(ids[..n], results) <= MissingIds(ids, results)
    decreases |ids|
  {
    if ids != [] {
      var init, last := ids[..|ids| - 1], ids[|ids| - 1];
      assert ids == init + [last];
      MissingIdsExactly(init, results);
      forall n | 0 <= n <= |ids|
        ensures MissingIds(ids[..n], results) <= MissingIds(ids, results)
      {
        if n < |ids| {
          assert ids[..n] == init[..n];
        } else {
          assert ids[..n] == ids;
        }
      }
      if p :| p in results && p.ProductId in ids {
        if p.ProductId != last {
          assert p.ProductId in init;
        }
      }
    }
  }

  /** What `GetBasePricesFromD365` asks for again after one call: nothing when the call
      returned no results or every id has a price, else the missing ids. */
  function RetryIds(ids: seq<int>, results: seq<ProductPrice>): (retry: Option<seq<int>>)
    ensures retry.Some? <==> results != [] && MissingIds(ids, results) != []
    ensures retry.Some? ==> retry.value == MissingIds(ids, results)
  {
    if results == [] then None
    else
      var missing := MissingIds(ids, results);
      if missing == [] then None else Some(missing)
  }

  /** No retry asks for an id that already has a price, nor for one outside the batch,
      so every retry is for a strictly shorter list when some id was priced. */
  lemma RetryShrinks(ids: seq<int>, results: seq<ProductPrice>)
    requires RetryIds(ids, results).Some?
    requires exists p | p in results :: p.ProductId in ids
    ensures forall id | id in RetryIds(ids, results).value :: id in ids && forall p | p in results :: p.ProductId != id
    ensures multiset(RetryIds(ids, results).value) != multiset(ids)
    ensures |RetryIds(ids, results).value| < |ids|
  {
    MissingIdsExactly(ids, results);
    var p :| p in results && p.ProductId in ids;
    assert p.ProductId !in RetryIds(ids, results).value;
    assert p.ProductId in multiset(ids);
    assert p.ProductId !in multiset(RetryIds(ids, results).value);
  }
}
