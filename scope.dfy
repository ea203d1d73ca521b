/** Scope expansion shared by the special, tier and deal price helpers: which
    priced products each Include line of an offer applies to.

    The three helpers (SpecialPriceHelper, TierPriceHelper, DealPriceHelper) run the
    same expansion; this module states it once, as functions over the inputs, with
    `PromotionType` carrying the one difference that concerns scope: only special
    prices skip inert lines. */
module ScopeExpansion {
  import opened Wrappers
  import opened Text
  import Grouping

  datatype PromotionType = Special | Tier | Deal

  /** `ProductCategoryBlob`: a category and its parent (null for a root). */
  datatype CategoryBlob = CategoryBlob(RecordId: int, ParentCategory: Option<int>, Name: string)

  /** `ProductPriceItem`: a product with its base price and its category. */
  datatype PricedProduct = PricedProduct(RecordId: int, Sku: string, BasePrice: real, UOM: string, Category: int)

  /** One discount line. The fields of `SimpleDiscount`, `QuantityDiscount` and
      `MixAndMatchDealPrice` together; each helper reads its own. `LineType` 0 is
      Include, 1 is Exclude. `ValidFrom`/`ValidTo` are the formatted dates. */
  datatype DiscountRule = DiscountRule(
    OfferId: string, Product: int, Variant: int, Category: int, UOM: string, LineType: int,
    DiscountMethod: string, Discount: real, DiscountAmount: real, OfferPrice: real, LowestQty: real,
    ValidFrom: string, ValidTo: string, Name: string, Description: string)

  /** The three exclusion lists of one offer. */
  datatype Exclusions = Exclusions(Categories: seq<int>, Products: seq<int>, Variants: seq<int>)

  /** A product an Include line applies to. `TopLevel` is false when the product was
      found while descending into a subcategory. */
  datatype Match = Match(Rule: DiscountRule, Product: PricedProduct, TopLevel: bool)

  // ---------------------------------------------------------------- offers

  function OfferIdOf(r: DiscountRule): string { r.OfferId }

  /** `discounts.GroupBy(key => key.OfferId)`. */
  function Offers(rules: seq<DiscountRule>): seq<seq<DiscountRule>> {
    Grouping.GroupBy(rules, OfferIdOf)
  }

  predicate IsCategoryExclusion(r: DiscountRule) { r.Category > 0 && r.Product == 0 && r.LineType == 1 }
  predicate IsProductExclusion(r: DiscountRule) { r.Product > 0 && r.Variant == 0 && r.LineType == 1 }
  predicate IsVariantExclusion(r: DiscountRule) { r.Product > 0 && r.Variant > 0 && r.LineType == 1 }

  /** The three shapes of Exclude line. */
  datatype ExclusionKind = CategoryLines | ProductLines | VariantLines

  predicate IsExclusionOf(kind: ExclusionKind, r: DiscountRule) {
    match kind
    case CategoryLines => IsCategoryExclusion(r)
    case ProductLines => IsProductExclusion(r)
    case VariantLines => IsVariantExclusion(r)
  }

  /** The id an Exclude line of that shape names. */
  function ExcludedId(kind: ExclusionKind, r: DiscountRule): int {
    match kind
    case CategoryLines => r.Category
    case ProductLines => r.Product
    case VariantLines => r.Variant
  }

  /** `offer.Where(...).Select(...).ToList()` for one shape of Exclude line. */
  function Collect(offer: seq<DiscountRule>, kind: ExclusionKind): seq<int>
    decreases |offer|
  {
    if offer == [] then []
    else
      var last := offer[|offer| - 1];
      Collect(offer[..|offer| - 1], kind) + (if IsExclusionOf(kind, last) then [ExcludedId(kind, last)] else [])
  }

  /** The exclusion lists of an offer, computed from all of its lines. */
  function OfferExclusions(offer: seq<DiscountRule>): Exclusions {
    Exclusions(Collect(offer, CategoryLines), Collect(offer, ProductLines), Collect(offer, VariantLines))
  }

  // ------------------------------------------------------- product-targeted

  /** The id a product-targeted line names: the variant when there is one. */
  function TargetId(r: DiscountRule): int {
    if r.Variant > 0 then r.Variant else r.Product
  }

  /** UOM test of product-targeted lines: empty, or equal ignoring case. */
  predicate UomFitsIgnoringCase(ruleUom: string, productUom: string) {
    ruleUom == "" || EqualsIgnoreCase(ruleUom, productUom)
  }

  /** UOM test of category-targeted lines: empty, or exactly equal. */
  predicate UomFitsExactly(ruleUom: string, productUom: string) {
    ruleUom == "" || ruleUom == productUom
  }

  predicate IsTargetOf(r: DiscountRule, p: PricedProduct) {
    p.RecordId == TargetId(r) && UomFitsIgnoringCase(r.UOM, p.UOM)
  }

  /** `productsList.FirstOrDefault(...)` for a product-targeted line. */
  function FindTarget(r: DiscountRule, products: seq<PricedProduct>): Option<PricedProduct> {
    if products == [] then None
    else if IsTargetOf(r, products[0]) then Some(products[0])
    else FindTarget(r, products[1..])
  }

  // ------------------------------------------------------ category-targeted

  /** `blobCategories.FirstOrDefault(filter => filter.RecordId == id)`. */
  function FindCategory(cats: seq<CategoryBlob>, id: int): Option<CategoryBlob> {
    if cats == [] then None
    else if cats[0].RecordId == id then Some(cats[0])
    else FindCategory(cats[1..], id)
  }

  predicate Excluded(ex: Exclusions, p: PricedProduct) {
    p.RecordId in ex.Products || p.RecordId in ex.Variants
  }

  /** A product of category `id` that a category-targeted line keeps. */
  predicate Eligible(r: DiscountRule, ex: Exclusions, id: int, p: PricedProduct) {
    p.Category == id && !Excluded(ex, p) && UomFitsExactly(r.UOM, p.UOM)
  }

  /** The products of category `id` itself that line `r` applies to, in list order. */
  function OwnMatches(r: DiscountRule, ex: Exclusions, id: int, top: bool, ps: seq<PricedProduct>): seq<Match>
    decreases |ps|
  {
    if ps == [] then []
    else
      var init, last := ps[..|ps| - 1], ps[|ps| - 1];
      assert ps == init + [last];
      OwnMatches(r, ex, id, top, init) + (if Eligible(r, ex, id, last) then [Match(r, last, top)] else [])
  }

  /** The category walk terminates: every child is ranked strictly below its parent.
      A cycle in the parent chain admits no such rank. */
  ghost predicate RankedBy(cats: seq<CategoryBlob>, rank: int -> nat) {
    forall i :: 0 <= i < |cats| && cats[i].ParentCategory.Some? ==>
      rank(cats[i].RecordId) < rank(cats[i].ParentCategory.value)
  }

  /** A child of `id` the walk descends into. */
  predicate Descends(c: CategoryBlob, id: int, exCats: seq<int>) {
    c.ParentCategory == Some(id) && c.RecordId !in exCats
  }

  /** The matches of category `id` and of every subcategory not pruned by an
      excluded category, in depth-first pre-order. */
  function SubtreeMatches(r: DiscountRule, ex: Exclusions, products: seq<PricedProduct>, cats: seq<CategoryBlob>,
                          id: int, top: bool, ghost rank: int -> nat): seq<Match>
    requires RankedBy(cats, rank)
    decreases rank(id), 1, 0
  {
    OwnMatches(r, ex, id, top, products) + ChildMatches(r, ex, products, cats, id, |cats|, rank)
  }

  /** The matches of the subtrees of the children of `id` among `cats[..n]`. */
  function ChildMatches(r: DiscountRule, ex: Exclusions, products: seq<PricedProduct>, cats: seq<CategoryBlob>,
                        id: int, n: nat, ghost rank: int -> nat): seq<Match>
    requires RankedBy(cats, rank) && n <= |cats|
    decreases rank(id), 0, n
  {
    if n == 0 then []
    else
      ChildMatches(r, ex, products, cats, id, n - 1, rank)
      + (if Descends(cats[n - 1], id, ex.Categories)
         then SubtreeMatches(r, ex, products, cats, cats[n - 1].RecordId, false, rank)
         else [])
  }

  /** Category `cat` is `id` or below it, reached through children not in `exCats`. */
  ghost predicate InScope(cats: seq<CategoryBlob>, exCats: seq<int>, id: int, cat: int, rank: int -> nat)
    requires RankedBy(cats, rank)
    decreases rank(id)
  {
    cat == id ||
    exists i :: 0 <= i < |cats| && Descends(cats[i], id, exCats) && InScope(cats, exCats, cats[i].RecordId, cat, rank)
  }

  // -------------------------------------------------------------- one line

  /** Only special prices skip a line with `DiscountMethod == "0"` and no percentage. */
  predicate Inert(kind: PromotionType, r: DiscountRule) {
    kind == Special && r.DiscountMethod == "0" && r.Discount == 0.0
  }

  predicate IsProductRule(r: DiscountRule) { r.Product > 0 && r.LineType == 0 }
  predicate IsCategoryRule(r: DiscountRule) { r.Category > 0 && r.Product == 0 && r.LineType == 0 }

  /** What one line of an offer contributes, given the offer's exclusions. */
  function RuleMatches(kind: PromotionType, r: DiscountRule, ex: Exclusions, products: seq<PricedProduct>,
                       cats: seq<CategoryBlob>, ghost rank: int -> nat): seq<Match>
    requires RankedBy(cats, rank)
  {
    if Inert(kind, r) then []
    else if IsProductRule(r) then
      match FindTarget(r, products)
      case Some(p) => [Match(r, p, true)]
      case None => []
    else if IsCategoryRule(r) then
      if FindCategory(cats, r.Category).None? then []
      else SubtreeMatches(r, ex, products, cats, r.Category, true, rank)
    else []
  }

  /** The matches of the lines `offer[..n]`, with the exclusions of the whole offer. */
  function RulesMatches(kind: PromotionType, offer: seq<DiscountRule>, n: nat, products: seq<PricedProduct>,
                        cats: seq<CategoryBlob>, ghost rank: int -> nat): seq<Match>
    requires RankedBy(cats, rank) && n <= |offer|
  {
    if n == 0 then []
    else RulesMatches(kind, offer, n - 1, products, cats, rank)
         + RuleMatches(kind, offer[n - 1], OfferExclusions(offer), products, cats, rank)
  }

  function OfferMatches(kind: PromotionType, offer: seq<DiscountRule>, products: seq<PricedProduct>,
                        cats: seq<CategoryBlob>, ghost rank: int -> nat): seq<Match>
    requires RankedBy(cats, rank)
  {
    RulesMatches(kind, offer, |offer|, products, cats, rank)
  }

  /** The matches of the offers `offers[..n]`, offer after offer. */
  function OffersMatches(kind: PromotionType, offers: seq<seq<DiscountRule>>, n: nat, products: seq<PricedProduct>,
                         cats: seq<CategoryBlob>, ghost rank: int -> nat): seq<Match>
    requires RankedBy(cats, rank) && n <= |offers|
  {
    if n == 0 then []
    else OffersMatches(kind, offers, n - 1, products, cats, rank) + OfferMatches(kind, offers[n - 1], products, cats, rank)
  }

  /** Every match of one pass, in output order: offer by offer, line by line, and
      for a category line in depth-first pre-order. Nothing is deduplicated. */
  function EngineMatches(kind: PromotionType, rules: seq<DiscountRule>, products: seq<PricedProduct>,
                         cats: seq<CategoryBlob>, ghost rank: int -> nat): seq<Match>
    requires RankedBy(cats, rank)
  {
    var offers := Offers(rules);
    OffersMatches(kind, offers, |offers|, products, cats, rank)
  }
}
