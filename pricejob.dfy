/** The price job of `FunctionHelper`: the base-price feed and the dispatch on the
    configured price type. */
module PriceJob {
  import opened Wrappers
  import opened Text
  import Grouping
  import opened ScopeExpansion
  import opened PriceCalculators
  import opened PromotionEngine
  import opened DealMerge

  /** `ProductBasePrice`: one row of the base-price feed. */
  datatype BasePriceRow = BasePriceRow(Sku: string, BasePrice: real, StoreViewCode: string, UOM: string)

  /** The `Select` of `TransmitBasePriceAsync`: one row per priced product. */
  function ListOfBasePrices(items: seq<PricedProduct>, storeViewCode: string): (rows: seq<BasePriceRow>)
    ensures |rows| == |items|
    ensures forall i :: 0 <= i < |items| ==>
      rows[i].Sku == items[i].Sku && rows[i].BasePrice == items[i].BasePrice
      && rows[i].UOM == items[i].UOM && rows[i].StoreViewCode == storeViewCode
  {
    seq(|items|, i requires 0 <= i < |items| =>
      BasePriceRow(items[i].Sku, items[i].BasePrice, storeViewCode, items[i].UOM))
  }

  /** The anonymous key `new { p.Sku, p.BasePrice }`. */
  datatype SkuPrice = SkuPrice(Sku: string, BasePrice: real)

  function PairOf(row: BasePriceRow): SkuPrice {
    SkuPrice(row.Sku, row.BasePrice)
  }

  /** The groups of `GroupBy(p => new { p.Sku, p.BasePrice })` are non-empty. */
  lemma PairGroupNonEmpty(rows: seq<BasePriceRow>, i: nat)
    requires i < |Grouping.GroupBy(rows, PairOf)|
    ensures Grouping.GroupBy(rows, PairOf)[i] != []
  {
    var ks := Grouping.Keys(rows, PairOf);
    assert ks[i] in ks;
    Grouping.MembersExactly(rows, PairOf, ks[i]);
  }

  /** The grouped `Select`: the key's SKU and price, with the store view and the UOM of
      the group's first row. */
  function DedupedPrices(rows: seq<BasePriceRow>): seq<BasePriceRow> {
    var ks, groups := Grouping.Keys(rows, PairOf), Grouping.GroupBy(rows, PairOf);
    seq(|groups|, i requires 0 <= i < |groups| =>
      PairGroupNonEmpty(rows, i);
      BasePriceRow(ks[i].Sku, ks[i].BasePrice, groups[i][0].StoreViewCode, groups[i][0].UOM))
  }

  /** The deduplicated rows carry the grouping keys, one each, in key order. */
  lemma DedupedKeys(rows: seq<BasePriceRow>)
    ensures var d, ks := DedupedPrices(rows), Grouping.Keys(rows, PairOf);
      |d| == |ks| && forall i :: 0 <= i < |d| ==> PairOf(d[i]) == ks[i]
  {
  }

  /** No two rows of the deduplicated feed share a `(Sku, BasePrice)` pair, and there
      are no more of them than input rows. */
  lemma DedupedPairsDistinct(rows: seq<BasePriceRow>)
    ensures var d := DedupedPrices(rows);
      (forall i, j :: 0 <= i < j < |d| ==> PairOf(d[i]) != PairOf(d[j])) && |d| <= |rows|
  {
    DedupedKeys(rows);
    Grouping.KeysExactly(rows, PairOf);
  }

  /** Every `(Sku, BasePrice)` pair of the input has a row in the deduplicated feed. */
  lemma DedupedCoversInput(rows: seq<BasePriceRow>)
    ensures var d := DedupedPrices(rows);
      forall row | row in rows :: exists i :: 0 <= i < |d| && PairOf(d[i]) == PairOf(row)
  {
    var d, ks := DedupedPrices(rows), Grouping.Keys(rows, PairOf);
    DedupedKeys(rows);
    Grouping.KeysExactly(rows, PairOf);
    forall row | row in rows ensures exists i :: 0 <= i < |d| && PairOf(d[i]) == PairOf(row) {
      var i :| 0 <= i < |ks| && ks[i] == PairOf(row);
      assert PairOf(d[i]) == PairOf(row);
    }
  }

  /** Every row of the deduplicated feed has the pair of some input row. */
  lemma DedupedFromInput(rows: seq<BasePriceRow>)
    ensures var d := DedupedPrices(rows);
      forall i :: 0 <= i < |d| ==> exists row :: row in rows && PairOf(row) == PairOf(d[i])
  {
    var d, ks := DedupedPrices(rows), Grouping.Keys(rows, PairOf);
    DedupedKeys(rows);
    Grouping.KeysExactly(rows, PairOf);
    forall i | 0 <= i < |d| ensures exists row :: row in rows && PairOf(row) == PairOf(d[i]) {
      assert ks[i] in ks;
    }
  }

  /** Each deduplicated row takes its store view and UOM from the first input row with
      its pair. */
  lemma DedupedPricesFirstRow(rows: seq<BasePriceRow>, i: nat)
    requires i < |Grouping.Keys(rows, PairOf)|
    ensures var k := Grouping.Keys(rows, PairOf)[i];
      var first := rows[Grouping.FirstIndex(rows, PairOf, k)];
      DedupedPrices(rows)[i] == BasePriceRow(k.Sku, k.BasePrice, first.StoreViewCode, first.UOM)
  {
    var ks := Grouping.Keys(rows, PairOf);
    assert ks[i] in ks;
    Grouping.MembersStartWithFirst(rows, PairOf, ks[i]);
  }

  /** `TransmitBasePriceAsync` up to the upload: the deduplicated feed, sent only when
      it is non-empty. */
  function BaseTransmission(items: seq<PricedProduct>, storeViewCode: string): Transmission<BasePriceRow> {
    var prices := DedupedPrices(ListOfBasePrices(items, storeViewCode));
    if |prices| > 0 then Sent(prices) else NotSent
  }

  /** The base feed is sent exactly when there are priced products, every row carrying
      the configured store view. */
  lemma BaseTransmissionSent(items: seq<PricedProduct>, storeViewCode: string)
    ensures BaseTransmission(items, storeViewCode).Sent? <==> items != []
    ensures BaseTransmission(items, storeViewCode).Sent? ==>
      forall row | row in BaseTransmission(items, storeViewCode).Payload :: row.StoreViewCode == storeViewCode
  {
    var rows := ListOfBasePrices(items, storeViewCode);
    DedupedPairsDistinct(rows);
    DedupedCoversInput(rows);
    if items != [] {
      assert rows[0] in rows;
    }
    var d := DedupedPrices(rows);
    forall row | row in d ensures row.StoreViewCode == storeViewCode {
      var i :| 0 <= i < |d| && d[i] == row;
      DedupedPricesFirstRow(rows, i);
    }
  }

  /** The sent feed holds exactly the `(Sku, BasePrice)` pairs of the priced products,
      each pair once. */
  lemma BaseFeedPairs(items: seq<PricedProduct>, storeViewCode: string)
    requires BaseTransmission(items, storeViewCode).Sent?
    ensures var d := BaseTransmission(items, storeViewCode).Payload;
      (forall item | item in items :: exists row | row in d :: row.Sku == item.Sku && row.BasePrice == item.BasePrice)
      && (forall row | row in d :: exists item | item in items :: row.Sku == item.Sku && row.BasePrice == item.BasePrice)
      && (forall i, j :: 0 <= i < j < |d| ==> PairOf(d[i]) != PairOf(d[j]))
  {
    var rows := ListOfBasePrices(items, storeViewCode);
    DedupedPairsDistinct(rows);
    FeedCoversItems(items, rows, DedupedPrices(rows), storeViewCode);
  }

  /** Each priced product has a deduplicated row with its pair, and each such row has
      a product with its pair. */
  lemma FeedCoversItems(items: seq<PricedProduct>, rows: seq<BasePriceRow>, d: seq<BasePriceRow>, storeViewCode: string)
    requires rows == ListOfBasePrices(items, storeViewCode) && d == DedupedPrices(rows)
    ensures forall item | item in items :: exists row | row in d :: row.Sku == item.Sku && row.BasePrice == item.BasePrice
    ensures forall row | row in d :: exists item | item in items :: row.Sku == item.Sku && row.BasePrice == item.BasePrice
  {
    DedupedCoversInput(rows);
    ItemsHaveRows(items, rows, d, storeViewCode);
    DedupedFromInput(rows);
    RowsHaveItems(items, rows, d, storeViewCode);
  }

  /** Each priced product's pair is that of some deduplicated row. */
  lemma ItemsHaveRows(items: seq<PricedProduct>, rows: seq<BasePriceRow>, d: seq<BasePriceRow>, storeViewCode: string)
    requires rows == ListOfBasePrices(items, storeViewCode)
    requires forall row | row in rows :: exists i :: 0 <= i < |d| && PairOf(d[i]) == PairOf(row)
    ensures forall item | item in items :: exists row | row in d :: row.Sku == item.Sku && row.BasePrice == item.BasePrice
  {
    forall item | item in items
      ensures exists row | row in d :: row.Sku == item.Sku && row.BasePrice == item.BasePrice
    {
      var i :| 0 <= i < |items| && items[i] == item;
      assert rows[i] in rows;
      var k :| 0 <= k < |d| && PairOf(d[k]) == PairOf(rows[i]);
      assert d[k] in d;
    }
  }

  /** Each deduplicated row's pair is that of some priced product. */
  lemma RowsHaveItems(items: seq<PricedProduct>, rows: seq<BasePriceRow>, d: seq<BasePriceRow>, storeViewCode: string)
    requires rows == ListOfBasePrices(items, storeViewCode)
    requires forall i :: 0 <= i < |d| ==> exists row :: row in rows && PairOf(row) == PairOf(d[i])
    ensures forall row | row in d :: exists item | item in items :: row.Sku == item.Sku && row.BasePrice == item.BasePrice
  {
    forall row | row in d
      ensures exists item | item in items :: row.Sku == item.Sku && row.BasePrice == item.BasePrice
    {
      var k :| 0 <= k < |d| && d[k] == row;
      var r :| r in rows && PairOf(r) == PairOf(d[k]);
      var i :| 0 <= i < |rows| && rows[i] == r;
      assert items[i] in items;
    }
  }

  // ---------------------------------------------------------------- dispatch

  /** What `ProcessAsync` runs after fetching base prices. */
  datatype Step = TransmitBase | FetchCategories | TransmitPromotion(Kind: PromotionType)

  /** The lower-case `PriceType` that selects a promotion pass. */
  function KindName(kind: PromotionType): string {
    match kind
    case Special => "special"
    case Tier => "tier"
    case Deal => "deal"
  }

  /** The steps of `ProcessAsync`, in order: nothing without priced products; the base
      feed alone for `base`; otherwise the categories, then each promotion pass whose
      name the price type matches, tested one after the other. */
  function Steps(priceType: string, itemCount: nat): seq<Step> {
    if itemCount == 0 then []
    else if Lower(priceType) == "base" then [TransmitBase]
    else
      [FetchCategories]
      + (if Lower(priceType) == KindName(Special) then [TransmitPromotion(Special)] else [])
      + (if Lower(priceType) == KindName(Tier) then [TransmitPromotion(Tier)] else [])
      + (if Lower(priceType) == KindName(Deal) then [TransmitPromotion(Deal)] else [])
  }

  lemma LowerIdempotent(s: string)
    ensures Lower(Lower(s)) == Lower(s)
  {
    assert forall i :: 0 <= i < |s| ==> LowerChar(LowerChar(s[i])) == LowerChar(s[i]);
  }

  /** The dispatch ignores the case of the price type. */
  lemma StepsIgnoreCase(priceType: string, itemCount: nat)
    ensures Steps(Lower(priceType), itemCount) == Steps(priceType, itemCount)
  {
    LowerIdempotent(priceType);
  }

  /** With priced products the dispatch runs the base feed exactly for `base` and a
      promotion pass exactly for its name; without them it runs nothing. */
  lemma StepsExactly(priceType: string, itemCount: nat)
    ensures itemCount == 0 <==> Steps(priceType, itemCount) == []
    ensures TransmitBase in Steps(priceType, itemCount) <==> itemCount > 0 && Lower(priceType) == "base"
    ensures forall kind ::
      (TransmitPromotion(kind) in Steps(priceType, itemCount) <==> itemCount > 0 && Lower(priceType) == KindName(kind))
  {
    var t := Lower(priceType);
    assert "base" != "special" && "base" != "tier" && "base" != "deal";
    if itemCount > 0 && t != "base" {
      assert Steps(priceType, itemCount)[0] == FetchCategories;
    }
  }

  /** At most one transmission runs: the base feed alone, or the categories followed
      by a single promotion pass. */
  lemma StepsRunOnePass(priceType: string, itemCount: nat)
    ensures |Steps(priceType, itemCount)| <= 2
    ensures forall i, j :: 0 <= i < j < |Steps(priceType, itemCount)| ==>
              Steps(priceType, itemCount)[i] == FetchCategories && Steps(priceType, itemCount)[j].TransmitPromotion?
  {
    var t := Lower(priceType);
    assert "special" != "tier" && "special" != "deal" && "tier" != "deal";
    assert "base" != "special" && "base" != "tier" && "base" != "deal";
  }

  // ---------------------------------------------------------------- the job

  /** What one run of the job hands to the upload step. */
  datatype Output = BaseOutput(Base: Transmission<BasePriceRow>) | PromotionOutput(Kind: PromotionType, Promotion: Transmission<PriceRow>)

  /** The outcome each promotion pass promises: special and tier rows as matched,
      deal rows merged per offer. */
  function PromotionOutcome(kind: PromotionType, params: PriceParams, rules: seq<DiscountRule>,
                            products: seq<PricedProduct>, cats: seq<CategoryBlob>, ghost rank: int -> nat): Transmission<PriceRow>
    requires RankedBy(cats, rank)
  {
    var rows := Rows(RowMaker(kind, params), EngineMatches(kind, rules, products, cats, rank));
    if kind != Deal then Outcome(rules != [], rows)
    else
      DealPassRows(params, EngineMatches(kind, rules, products, cats, rank));
      if rules == [] || rows.value == [] then NotSent else Sent(CombinedDealPrices(rows.value))
  }

  /** `ProcessAsync` after the base prices are fetched: `rulesOf` gives the discount
      lines each promotion pass reads. */
  method Process(priceType: string, params: PriceParams, items: seq<PricedProduct>,
                 rulesOf: PromotionType -> seq<DiscountRule>, cats: seq<CategoryBlob>, ghost rank: int -> nat)
    returns (outputs: seq<Output>)
    requires RankedBy(cats, rank)
    ensures |outputs| <= 1
    ensures outputs != [] <==> items != [] && Lower(priceType) in {"base", "special", "tier", "deal"}
    ensures items != [] && Lower(priceType) == "base" ==>
      outputs == [BaseOutput(BaseTransmission(items, params.StoreViewCode))]
    ensures forall kind :: items != [] && Lower(priceType) == KindName(kind) ==>
      outputs == [PromotionOutput(kind, PromotionOutcome(kind, params, rulesOf(kind), items, cats, rank))]
  {
    outputs := [];
    if |items| > 0 {
      var priceType := Lower(priceType);
      if priceType == "base" {
        outputs := [BaseOutput(BaseTransmission(items, params.StoreViewCode))];
      } else {
        if priceType == "special" {
          var t := TransmitSpecialPrices(params, rulesOf(Special), items, cats, rank);
          outputs := outputs + [PromotionOutput(Special, t)];
        }
        if priceType == "tier" {
          var t := TransmitTierPrices(params, rulesOf(Tier), items, cats, rank);
          outputs := outputs + [PromotionOutput(Tier, t)];
        }
        if priceType == "deal" {
          var t := TransmitDealPrices(params, rulesOf(Deal), items, cats, rank);
          outputs := outputs + [PromotionOutput(Deal, t)];
        }
      }
    }
  }
}
