/** The price calculators and the rows each helper makes from a match. */
module PriceCalculators {
  import opened Wrappers
  import opened ScopeExpansion
  import Money

  /** The one failure of a pass: the tier amount branch divides by `LowestQty`. */
  datatype PriceError = DivideByZero

  /** The parts of `PriceParams` the rows read. */
  datatype PriceParams = PriceParams(StoreViewCode: string, Website: string)

  /** `GetDiscountPrice`: a percentage off, else an amount off, else the offer price. */
  function DiscountPrice(basePrice: real, r: DiscountRule): (price: real)
    ensures r.Discount > 0.0 ==> price == basePrice * (100.0 - r.Discount) / 100.0
    ensures r.Discount <= 0.0 && r.DiscountAmount > 0.0 ==> basePrice - price == r.DiscountAmount
    ensures r.Discount <= 0.0 && r.DiscountAmount <= 0.0 ==> price == r.OfferPrice
  {
    if r.Discount > 0.0 then basePrice - (r.Discount / 100.0) * basePrice
    else if r.DiscountAmount > 0.0 then basePrice - r.DiscountAmount
    else r.OfferPrice
  }

  /** The tier amount branch divides by zero. */
  predicate DividesByZero(r: DiscountRule) {
    r.Discount <= 0.0 && r.DiscountAmount > 0.0 && r.LowestQty == 0.0
  }

  /** `GetQuantityDiscountPrice`: as `DiscountPrice`, with the amount spread over
      `LowestQty` units; a zero `LowestQty` in that branch throws. */
  function QuantityDiscountPrice(basePrice: real, r: DiscountRule): (price: Result<real, PriceError>)
    ensures price.Failure? <==> DividesByZero(r)
    ensures price.Success? && (r.Discount > 0.0 || r.DiscountAmount <= 0.0) ==> price.value == DiscountPrice(basePrice, r)
    ensures price.Success? && r.Discount <= 0.0 && r.DiscountAmount > 0.0 ==>
      (basePrice - price.value) * r.LowestQty == r.DiscountAmount
  {
    if r.Discount > 0.0 then Success(basePrice - (r.Discount / 100.0) * basePrice)
    else if r.DiscountAmount > 0.0 then
      if r.LowestQty == 0.0 then Failure(DivideByZero)
      else Success(basePrice - r.DiscountAmount / r.LowestQty)
    else Success(r.OfferPrice)
  }

  /** One output row: `ProductSpecialPrice`, `ProductTierPrice` or a pre-merge
      `ProductDealPrice` (whose `Skus` holds one SKU). `Quantity` is the number the
      row formats; the formatting itself is culture-dependent and not modelled. */
  datatype PriceRow =
    | SpecialRow(Sku: string, SpecialPrice: real, SpecialPriceFeed: real, EligibleForPromo: string,
                 ValidFrom: string, ValidTo: string, StoreViewCode: string)
    | TierRow(Sku: string, Quantity: real, TierPrice: real, Website: string, CustomerGroup: string, ValueType: string)
    | DealRow(OfferId: string, Skus: string, BasePrice: real, Discount: real, DealPrice: real, Name: string,
              Description: string, Website: string, Status: int)

  /** Whether making a row of this kind for this line fails. */
  predicate Faulty(kind: PromotionType, r: DiscountRule) {
    kind == Tier && DividesByZero(r)
  }

  /** The row a helper makes for a match. */
  function MakeRow(kind: PromotionType, params: PriceParams, m: Match): Result<PriceRow, PriceError>
  {
    var r, p := m.Rule, m.Product;
    match kind
    case Special =>
      var price := DiscountPrice(p.BasePrice, r);
      Success(SpecialRow(p.Sku, price, price, "no", r.ValidFrom, r.ValidTo, params.StoreViewCode))
    case Tier =>
      var quantity := if m.TopLevel then Money.RoundCents(r.LowestQty) else r.LowestQty;
      (match QuantityDiscountPrice(p.BasePrice, r)
       case Success(price) => Success(TierRow(p.Sku, quantity, price, params.Website, "ALL GROUPS", "Fixed"))
       case Failure(e) => Failure(e))
    case Deal =>
      Success(DealRow(r.OfferId, p.Sku, p.BasePrice, 0.0, r.OfferPrice, r.Name, r.Description, params.Website, 0))
  }

  /** Each helper's row: its kind, the matched product's SKU and base price, the
      line's price, and the constants the source writes; only a tier row for a line
      whose amount branch divides by zero fails. */
  lemma MakeRowShape(kind: PromotionType, params: PriceParams, m: Match)
    ensures MakeRow(kind, params, m).Failure? <==> Faulty(kind, m.Rule)
    ensures var row := MakeRow(kind, params, m);
      row.Success? && kind == Special ==>
        row.value.SpecialRow? && row.value.Sku == m.Product.Sku
        && row.value.SpecialPrice == row.value.SpecialPriceFeed == DiscountPrice(m.Product.BasePrice, m.Rule)
        && row.value.EligibleForPromo == "no" && row.value.StoreViewCode == params.StoreViewCode
    ensures var row := MakeRow(kind, params, m);
      row.Success? && kind == Tier ==>
        row.value.TierRow? && row.value.Sku == m.Product.Sku
        && QuantityDiscountPrice(m.Product.BasePrice, m.Rule) == Success(row.value.TierPrice)
        && row.value.Quantity == (if m.TopLevel then Money.RoundCents(m.Rule.LowestQty) else m.Rule.LowestQty)
        && row.value.CustomerGroup == "ALL GROUPS" && row.value.ValueType == "Fixed"
        && row.value.Website == params.Website
    ensures var row := MakeRow(kind, params, m);
      row.Success? && kind == Deal ==>
        row.value.DealRow? && row.value.OfferId == m.Rule.OfferId && row.value.Skus == m.Product.Sku
        && row.value.BasePrice == m.Product.BasePrice && row.value.DealPrice == m.Rule.OfferPrice
        && row.value.Discount == 0.0 && row.value.Name == m.Rule.Name && row.value.Description == m.Rule.Description
        && row.value.Status == 0 && row.value.Website == params.Website
  {
  }

  /** How a helper turns a match into a row. */
  type RowBuilder = Match -> Result<PriceRow, PriceError>

  /** The row builder of one helper. */
  function RowMaker(kind: PromotionType, params: PriceParams): RowBuilder {
    m => MakeRow(kind, params, m)
  }

  /** The rows of a sequence of matches, or the failure of the first failing one. */
  function Rows(rowOf: RowBuilder, ms: seq<Match>): Result<seq<PriceRow>, PriceError> {
    if ms == [] then Success([])
    else
      match rowOf(ms[0])
      case Failure(e) => Failure(e)
      case Success(row) =>
        match Rows(rowOf, ms[1..])
        case Failure(e) => Failure(e)
        case Success(rows) => Success([row] + rows)
  }

  /** A pass fails exactly when one of its matches fails; otherwise it makes one row
      per match, in order. */
  lemma {:induction false} RowsMeaning(rowOf: RowBuilder, ms: seq<Match>)
    ensures Rows(rowOf, ms).Failure? <==> exists i :: 0 <= i < |ms| && rowOf(ms[i]).Failure?
    ensures Rows(rowOf, ms).Success? ==>
      var rows := Rows(rowOf, ms).value;
      |rows| == |ms| && forall i :: 0 <= i < |ms| ==> rowOf(ms[i]) == Success(rows[i])
  {
    if ms != [] {
      RowsMeaning(rowOf, ms[1..]);
      assert forall i :: 1 <= i < |ms| ==> ms[i] == ms[1..][i - 1];
    }
  }

  /** Appending row lists, keeping the first failure. */
  function Concat(a: Result<seq<PriceRow>, PriceError>, b: Result<seq<PriceRow>, PriceError>): Result<seq<PriceRow>, PriceError> {
    match a
    case Failure(e) => Failure(e)
    case Success(x) =>
      match b
      case Failure(e) => Failure(e)
      case Success(y) => Success(x + y)
  }

  lemma {:induction false} RowsConcat(rowOf: RowBuilder, a: seq<Match>, b: seq<Match>)
    ensures Rows(rowOf, a + b) == Concat(Rows(rowOf, a), Rows(rowOf, b))
  {
    if a == [] {
      assert a + b == b;
      match Rows(rowOf, b)
      case Failure(_) =>
      case Success(rest) => assert [] + rest == rest;
    } else {
      assert (a + b)[0] == a[0];
      assert (a + b)[1..] == a[1..] + b;
      RowsConcat(rowOf, a[1..], b);
      match rowOf(a[0])
      case Failure(_) =>
      case Success(row) =>
        match Rows(rowOf, a[1..])
        case Failure(_) =>
        case Success(tail) =>
          match Rows(rowOf, b)
          case Failure(_) =>
          case Success(rest) => assert [row] + (tail + rest) == ([row] + tail) + rest;
    }
  }

  /** Special and deal rows never fail; a tier pass fails exactly when one of its
      matches comes from a line whose amount branch divides by zero. */
  lemma OnlyTierRowsFail(kind: PromotionType, params: PriceParams, ms: seq<Match>)
    ensures kind != Tier ==> Rows(RowMaker(kind, params), ms).Success?
    ensures kind == Tier ==> (Rows(RowMaker(kind, params), ms).Failure? <==> exists m :: m in ms && DividesByZero(m.Rule))
  {
    var rowOf := RowMaker(kind, params);
    RowsMeaning(rowOf, ms);
    forall i | 0 <= i < |ms| ensures rowOf(ms[i]).Failure? <==> Faulty(kind, ms[i].Rule) {
      MakeRowShape(kind, params, ms[i]);
    }
    if kind == Tier && (exists m :: m in ms && DividesByZero(m.Rule)) {
      var m :| m in ms && DividesByZero(m.Rule);
      var i :| 0 <= i < |ms| && ms[i] == m;
    }
  }

  // ------------------------------------------------------------ calculators

  /** A percentage in (0, 100] never raises the price and never makes it negative
      for a non-negative base price. */
  lemma PercentDiscountBounds(basePrice: real, r: DiscountRule)
    requires basePrice >= 0.0 && 0.0 < r.Discount <= 100.0
    ensures 0.0 <= DiscountPrice(basePrice, r) <= basePrice
  {
    assert DiscountPrice(basePrice, r) == basePrice * ((100.0 - r.Discount) / 100.0);
    assert 0.0 <= (100.0 - r.Discount) / 100.0 <= 1.0;
  }

  /** The percentage wins over the amount, and either wins over the offer price. */
  lemma DiscountPrecedence(basePrice: real, r: DiscountRule, amount: real, offerPrice: real)
    requires r.Discount > 0.0
    ensures DiscountPrice(basePrice, r.(DiscountAmount := amount, OfferPrice := offerPrice)) == DiscountPrice(basePrice, r)
  {
  }

  /** The tier calculator is the special calculator applied to the per-unit amount,
      for a positive `LowestQty`. */
  lemma QuantityPriceIsPerUnitDiscount(basePrice: real, r: DiscountRule)
    requires r.LowestQty > 0.0
    ensures QuantityDiscountPrice(basePrice, r)
            == Success(DiscountPrice(basePrice, r.(DiscountAmount := r.DiscountAmount / r.LowestQty)))
  {
    var perUnit := r.(DiscountAmount := r.DiscountAmount / r.LowestQty);
    assert perUnit.Discount == r.Discount && perUnit.OfferPrice == r.OfferPrice;
    if r.Discount <= 0.0 && r.DiscountAmount > 0.0 {
      assert perUnit.DiscountAmount > 0.0;
      assert DiscountPrice(basePrice, perUnit) == basePrice - r.DiscountAmount / r.LowestQty;
    } else if r.Discount <= 0.0 {
      assert perUnit.DiscountAmount <= 0.0;
      assert DiscountPrice(basePrice, perUnit) == r.OfferPrice;
      assert QuantityDiscountPrice(basePrice, r) == Success(r.OfferPrice);
    } else {
      assert DiscountPrice(basePrice, perUnit) == basePrice - (r.Discount / 100.0) * basePrice;
    }
  }
}
