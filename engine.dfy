/** The three helpers' loops: `GetProducts*Prices` and `GetSubCategory*`, proved to
    produce the rows of the scope expansion. The helpers differ only in the inert-line
    skip (`kind`) and in the row they build (`rowOf`). */
module PromotionEngine {
  import opened Wrappers
  import opened ScopeExpansion
  import opened ScopeProperties
  import opened PriceCalculators

  /** Once a prefix of the matches fails, every extension fails the same way. */
  lemma FailureExtends(rowOf: RowBuilder, pre: seq<Match>, whole: seq<Match>, e: PriceError)
    requires pre <= whole && Rows(rowOf, pre) == Failure(e)
    ensures Rows(rowOf, whole) == Failure(e)
  {
    var rest := whole[|pre|..];
    assert whole == pre + rest;
    RowsConcat(rowOf, pre, rest);
  }

  /** The rows of a prefix followed by those of the next piece. */
  lemma AppendRows(rowOf: RowBuilder, before: seq<Match>, these: seq<Match>, rows: seq<PriceRow>,
                   res: Result<seq<PriceRow>, PriceError>)
    requires Rows(rowOf, before) == Success(rows) && res == Rows(rowOf, these)
    ensures res.Success? ==> Rows(rowOf, before + these) == Success(rows + res.value)
    ensures res.Failure? ==> Rows(rowOf, before + these) == Failure(res.error)
  {
    RowsConcat(rowOf, before, these);
  }

  /** The rows of a single match. */
  lemma SingleRow(rowOf: RowBuilder, m: Match)
    ensures rowOf(m).Success? ==> Rows(rowOf, [m]) == Success([rowOf(m).value])
    ensures rowOf(m).Failure? ==> Rows(rowOf, [m]) == Failure(rowOf(m).error)
  {
    assert [m][1..] == [];
    if rowOf(m).Success? {
      assert [rowOf(m).value] + [] == [rowOf(m).value];
    }
  }

  /** One more product of the category's own loop. */
  lemma OwnStep(r: DiscountRule, ex: Exclusions, id: int, top: bool, products: seq<PricedProduct>, j: nat)
    requires j < |products|
    ensures OwnMatches(r, ex, id, top, products[..j + 1])
            == OwnMatches(r, ex, id, top, products[..j])
               + (if Eligible(r, ex, id, products[j]) then [Match(r, products[j], top)] else [])
  {
    assert products[..j + 1][..j] == products[..j];
  }

  /** One more line of an offer: its rows are appended, or its failure is the offer's. */
  lemma RuleStep(kind: PromotionType, rowOf: RowBuilder, offer: seq<DiscountRule>, k: nat,
                 products: seq<PricedProduct>, cats: seq<CategoryBlob>, rank: int -> nat,
                 rows: seq<PriceRow>, lineRows: Result<seq<PriceRow>, PriceError>)
    requires RankedBy(cats, rank) && k < |offer|
    requires Rows(rowOf, RulesMatches(kind, offer, k, products, cats, rank)) == Success(rows)
    requires lineRows == Rows(rowOf, RuleMatches(kind, offer[k], OfferExclusions(offer), products, cats, rank))
    ensures lineRows.Success? ==>
      Rows(rowOf, RulesMatches(kind, offer, k + 1, products, cats, rank)) == Success(rows + lineRows.value)
    ensures lineRows.Failure? ==>
      Rows(rowOf, OfferMatches(kind, offer, products, cats, rank)) == Failure(lineRows.error)
  {
    var before := RulesMatches(kind, offer, k, products, cats, rank);
    var these := RuleMatches(kind, offer[k], OfferExclusions(offer), products, cats, rank);
    assert RulesMatches(kind, offer, k + 1, products, cats, rank) == before + these;
    AppendRows(rowOf, before, these, rows, lineRows);
    if lineRows.Failure? {
      RulesMatchesPrefix(kind, offer, k + 1, |offer|, products, cats, rank);
      FailureExtends(rowOf, before + these, RulesMatches(kind, offer, |offer|, products, cats, rank), lineRows.error);
    }
  }

  /** One more offer: its rows are appended, or its failure is the pass's. */
  lemma OfferStep(kind: PromotionType, rowOf: RowBuilder, offers: seq<seq<DiscountRule>>, o: nat,
                  products: seq<PricedProduct>, cats: seq<CategoryBlob>, rank: int -> nat,
                  rows: seq<PriceRow>, offerRows: Result<seq<PriceRow>, PriceError>)
    requires RankedBy(cats, rank) && o < |offers|
    requires Rows(rowOf, OffersMatches(kind, offers, o, products, cats, rank)) == Success(rows)
    requires offerRows == Rows(rowOf, OfferMatches(kind, offers[o], products, cats, rank))
    ensures offerRows.Success? ==>
      Rows(rowOf, OffersMatches(kind, offers, o + 1, products, cats, rank)) == Success(rows + offerRows.value)
    ensures offerRows.Failure? ==>
      Rows(rowOf, OffersMatches(kind, offers, |offers|, products, cats, rank)) == Failure(offerRows.error)
  {
    var before := OffersMatches(kind, offers, o, products, cats, rank);
    var these := OfferMatches(kind, offers[o], products, cats, rank);
    assert OffersMatches(kind, offers, o + 1, products, cats, rank) == before + these;
    AppendRows(rowOf, before, these, rows, offerRows);
    if offerRows.Failure? {
      OffersMatchesPrefix(kind, offers, o + 1, |offers|, products, cats, rank);
      FailureExtends(rowOf, before + these, OffersMatches(kind, offers, |offers|, products, cats, rank), offerRows.error);
    }
  }

  /** The first loop of `GetSubCategory*` (and of the caller's category branch):
      the rows of category `id`'s own products that are neither excluded nor of
      another UOM. */
  method OwnRows(rowOf: RowBuilder, r: DiscountRule, ex: Exclusions,
                 products: seq<PricedProduct>, id: int, top: bool)
    returns (result: Result<seq<PriceRow>, PriceError>)
    ensures result == Rows(rowOf, OwnMatches(r, ex, id, top, products))
  {
    var rows: seq<PriceRow> := [];
    var j := 0;
    while j < |products|
      invariant 0 <= j <= |products|
      invariant Rows(rowOf, OwnMatches(r, ex, id, top, products[..j])) == Success(rows)
    {
      var p := products[j];
      ghost var before := OwnMatches(r, ex, id, top, products[..j]);
      OwnStep(r, ex, id, top, products, j);
      if p.Category == id && !(p.RecordId in ex.Products || p.RecordId in ex.Variants) && (r.UOM == "" || r.UOM == p.UOM) {
        var m := Match(r, p, top);
        var row := rowOf(m);
        SingleRow(rowOf, m);
        AppendRows(rowOf, before, [m], rows, Rows(rowOf, [m]));
        if row.Failure? {
          OwnMatchesPrefix(r, ex, id, top, products, j + 1);
          FailureExtends(rowOf, before + [m], OwnMatches(r, ex, id, top, products), row.error);
          return Failure(row.error);
        }
        rows := rows + [row.value];
      } else {
        assert before + [] == before;
      }
      j := j + 1;
    }
    assert products[..|products|] == products;
    return Success(rows);
  }

  /** One more child of category `id`: the rows of its subtree are appended (none for
      a child the walk skips), or its failure is that of all the children. */
  lemma ChildStep(rowOf: RowBuilder, r: DiscountRule, ex: Exclusions, products: seq<PricedProduct>,
                  cats: seq<CategoryBlob>, id: int, i: nat, rank: int -> nat,
                  rows: seq<PriceRow>, subRows: Result<seq<PriceRow>, PriceError>)
    requires RankedBy(cats, rank) && i < |cats|
    requires Rows(rowOf, ChildMatches(r, ex, products, cats, id, i, rank)) == Success(rows)
    requires Descends(cats[i], id, ex.Categories) ==>
      subRows == Rows(rowOf, SubtreeMatches(r, ex, products, cats, cats[i].RecordId, false, rank))
    requires !Descends(cats[i], id, ex.Categories) ==> subRows == Success([])
    ensures subRows.Success? ==>
      Rows(rowOf, ChildMatches(r, ex, products, cats, id, i + 1, rank)) == Success(rows + subRows.value)
    ensures subRows.Failure? ==>
      Rows(rowOf, ChildMatches(r, ex, products, cats, id, |cats|, rank)) == Failure(subRows.error)
  {
    var done := ChildMatches(r, ex, products, cats, id, i, rank);
    var these := if Descends(cats[i], id, ex.Categories)
                 then SubtreeMatches(r, ex, products, cats, cats[i].RecordId, false, rank) else [];
    assert ChildMatches(r, ex, products, cats, id, i + 1, rank) == done + these;
    if !Descends(cats[i], id, ex.Categories) {
      assert Rows(rowOf, these) == Success([]);
    }
    AppendRows(rowOf, done, these, rows, subRows);
    if subRows.Failure? {
      ChildMatchesPrefix(r, ex, products, cats, id, i + 1, |cats|, rank);
      FailureExtends(rowOf, done + these, ChildMatches(r, ex, products, cats, id, |cats|, rank), subRows.error);
    }
  }

  /** `GetSubCategory*` (and, with `top` set, the category branch of the caller):
      the rows of category `id`'s own products, then those of its children's
      subtrees. A failing row aborts the whole walk. */
  method CategoryRows(rowOf: RowBuilder, r: DiscountRule, ex: Exclusions, products: seq<PricedProduct>,
                      cats: seq<CategoryBlob>, id: int, top: bool, ghost rank: int -> nat)
    returns (result: Result<seq<PriceRow>, PriceError>)
    requires RankedBy(cats, rank)
    ensures result == Rows(rowOf, SubtreeMatches(r, ex, products, cats, id, top, rank))
    decreases rank(id), 1
  {
    ghost var own := OwnMatches(r, ex, id, top, products);
    ghost var children := ChildMatches(r, ex, products, cats, id, |cats|, rank);
    RowsConcat(rowOf, own, children);
    var ownRows := OwnRows(rowOf, r, ex, products, id, top);
    if ownRows.Failure? {
      return ownRows;
    }
    var childRows := ChildrenRows(rowOf, r, ex, products, cats, id, rank);
    if childRows.Failure? {
      return childRows;
    }
    return Success(ownRows.value + childRows.value);
  }

  /** The second loop of `GetSubCategory*`: every category whose parent is `id` and
      that is not excluded, walked in list order. */
  method ChildrenRows(rowOf: RowBuilder, r: DiscountRule, ex: Exclusions, products: seq<PricedProduct>,
                      cats: seq<CategoryBlob>, id: int, ghost rank: int -> nat)
    returns (result: Result<seq<PriceRow>, PriceError>)
    requires RankedBy(cats, rank)
    ensures result == Rows(rowOf, ChildMatches(r, ex, products, cats, id, |cats|, rank))
    decreases rank(id), 0
  {
    var rows: seq<PriceRow> := [];
    var i := 0;
    while i < |cats|
      invariant 0 <= i <= |cats|
      invariant Rows(rowOf, ChildMatches(r, ex, products, cats, id, i, rank)) == Success(rows)
    {
      var c := cats[i];
      if c.ParentCategory == Some(id) && c.RecordId !in ex.Categories {
        var subRows := CategoryRows(rowOf, r, ex, products, cats, c.RecordId, false, rank);
        ChildStep(rowOf, r, ex, products, cats, id, i, rank, rows, subRows);
        if subRows.Failure? {
          return Failure(subRows.error);
        }
        rows := rows + subRows.value;
      } else {
        ChildStep(rowOf, r, ex, products, cats, id, i, rank, rows, Success([]));
        assert rows + [] == rows;
      }
      i := i + 1;
    }
    return Success(rows);
  }

  /** The body of the helpers' inner loop: the rows of one line of an offer. */
  method RuleRows(kind: PromotionType, rowOf: RowBuilder, r: DiscountRule, offer: seq<DiscountRule>,
                  products: seq<PricedProduct>, cats: seq<CategoryBlob>, ghost rank: int -> nat)
    returns (result: Result<seq<PriceRow>, PriceError>)
    requires RankedBy(cats, rank)
    ensures result == Rows(rowOf, RuleMatches(kind, r, OfferExclusions(offer), products, cats, rank))
  {
    result := Success([]);
    if kind == Special && r.DiscountMethod == "0" && r.Discount == 0.0 {
      // an inert special line
    } else if r.Product > 0 && r.LineType == 0 {
      var target := FindTarget(r, products);
      if target.Some? {
        var m := Match(r, target.value, true);
        var row := rowOf(m);
        SingleRow(rowOf, m);
        result := match row case Success(v) => Success([v]) case Failure(e) => Failure(e);
      }
    } else if r.Category > 0 && r.Product == 0 && r.LineType == 0 {
      var category := FindCategory(cats, r.Category);
      var ex := OfferExclusions(offer);
      FindCategoryExactly(cats, r.Category);
      if category.Some? {
        result := CategoryRows(rowOf, r, ex, products, cats, category.value.RecordId, true, rank);
      }
    }
  }

  /** The helpers' inner loop: the rows of every line of one offer, in order. */
  method OfferRows(kind: PromotionType, rowOf: RowBuilder, offer: seq<DiscountRule>,
                   products: seq<PricedProduct>, cats: seq<CategoryBlob>, ghost rank: int -> nat)
    returns (result: Result<seq<PriceRow>, PriceError>)
    requires RankedBy(cats, rank)
    ensures result == Rows(rowOf, OfferMatches(kind, offer, products, cats, rank))
  {
    var rows: seq<PriceRow> := [];
    for k := 0 to |offer|
      invariant Rows(rowOf, RulesMatches(kind, offer, k, products, cats, rank)) == Success(rows)
    {
      var lineRows := RuleRows(kind, rowOf, offer[k], offer, products, cats, rank);
      RuleStep(kind, rowOf, offer, k, products, cats, rank, rows, lineRows);
      if lineRows.Failure? {
        return Failure(lineRows.error);
      }
      rows := rows + lineRows.value;
    }
    return Success(rows);
  }

  /** `GetProductsSpecialPrices`, `GetProductsTierPrices` and `GetProductsDealPrices`:
      offer by offer, the rows of each offer's lines. */
  method ProductsPrices(kind: PromotionType, rowOf: RowBuilder, rules: seq<DiscountRule>,
                        products: seq<PricedProduct>, cats: seq<CategoryBlob>, ghost rank: int -> nat)
    returns (result: Result<seq<PriceRow>, PriceError>)
    requires RankedBy(cats, rank)
    ensures result == Rows(rowOf, EngineMatches(kind, rules, products, cats, rank))
  {
    var offers := Offers(rules);
    result := OffersRows(kind, rowOf, offers, products, cats, rank);
  }

  /** The helpers' outer loop, over the offers in the order `GroupBy` yields them. */
  method OffersRows(kind: PromotionType, rowOf: RowBuilder, offers: seq<seq<DiscountRule>>,
                    products: seq<PricedProduct>, cats: seq<CategoryBlob>, ghost rank: int -> nat)
    returns (result: Result<seq<PriceRow>, PriceError>)
    requires RankedBy(cats, rank)
    ensures result == Rows(rowOf, OffersMatches(kind, offers, |offers|, products, cats, rank))
  {
    var rows: seq<PriceRow> := [];
    for o := 0 to |offers|
      invariant Rows(rowOf, OffersMatches(kind, offers, o, products, cats, rank)) == Success(rows)
    {
      var offerRows := OfferRows(kind, rowOf, offers[o], products, cats, rank);
      OfferStep(kind, rowOf, offers, o, products, cats, rank, rows, offerRows);
      if offerRows.Failure? {
        return Failure(offerRows.error);
      }
      rows := rows + offerRows.value;
    }
    return Success(rows);
  }

  /** What a `Transmit*Async` hands to the upload step. */
  datatype Transmission<T> = NotSent | Sent(Payload: seq<T>) | Failed(Error: PriceError)

  /** The upload decision of `TransmitSpecialPricesAsync` and `TransmitTierPricesAsync`:
      nothing without rules, nothing without rows, the rows otherwise. */
  function Outcome(hasRules: bool, rows: Result<seq<PriceRow>, PriceError>): (t: Transmission<PriceRow>)
    ensures t.Sent? <==> hasRules && rows.Success? && rows.value != []
    ensures t.Sent? ==> t.Payload == rows.value
    ensures t.Failed? <==> hasRules && rows.Failure?
  {
    if !hasRules then NotSent
    else match rows
      case Failure(e) => Failed(e)
      case Success(rs) => if rs == [] then NotSent else Sent(rs)
  }

  /** `TransmitSpecialPricesAsync` up to the upload: a special pass never fails. */
  method TransmitSpecialPrices(params: PriceParams, rules: seq<DiscountRule>, products: seq<PricedProduct>,
                               cats: seq<CategoryBlob>, ghost rank: int -> nat)
    returns (t: Transmission<PriceRow>)
    requires RankedBy(cats, rank)
    ensures t == Outcome(rules != [], Rows(RowMaker(Special, params), EngineMatches(Special, rules, products, cats, rank)))
    ensures !t.Failed?
  {
    OnlyTierRowsFail(Special, params, EngineMatches(Special, rules, products, cats, rank));
    if rules == [] {
      return NotSent;
    }
    var rows := ProductsPrices(Special, RowMaker(Special, params), rules, products, cats, rank);
    if rows.Success? && |rows.value| > 0 {
      return Sent(rows.value);
    }
    return NotSent;
  }

  /** `TransmitTierPricesAsync` up to the upload; a division by zero aborts the pass. */
  method TransmitTierPrices(params: PriceParams, rules: seq<DiscountRule>, products: seq<PricedProduct>,
                            cats: seq<CategoryBlob>, ghost rank: int -> nat)
    returns (t: Transmission<PriceRow>)
    requires RankedBy(cats, rank)
    ensures t == Outcome(rules != [], Rows(RowMaker(Tier, params), EngineMatches(Tier, rules, products, cats, rank)))
  {
    if rules == [] {
      return NotSent;
    }
    var rows := ProductsPrices(Tier, RowMaker(Tier, params), rules, products, cats, rank);
    if rows.Failure? {
      return Failed(rows.error);
    }
    if |rows.value| > 0 {
      return Sent(rows.value);
    }
    return NotSent;
  }
}
