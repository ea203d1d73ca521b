/** What the scope expansion promises: the exact set of products a category line
    reaches, pruning by excluded categories, the product-line match, and where every
    match of a whole pass comes from. */
module ScopeProperties {
  import opened Wrappers
  import opened ScopeExpansion
  import Grouping

  // ------------------------------------------------------------ lookups

  /** An id is collected exactly when some line of the offer of that shape names it. */
  lemma {:induction false} CollectExactly(offer: seq<DiscountRule>, kind: ExclusionKind, id: int)
    ensures id in Collect(offer, kind) <==> exists r :: r in offer && IsExclusionOf(kind, r) && ExcludedId(kind, r) == id
    decreases |offer|
  {
    if offer != [] {
      var init := offer[..|offer| - 1];
      assert offer == init + [offer[|offer| - 1]];
      CollectExactly(init, kind, id);
    }
  }

  /** The exclusion lists hold exactly the ids named by the offer's Exclude lines of
      each shape. */
  lemma OfferExclusionsExactly(offer: seq<DiscountRule>, id: int)
    ensures id in OfferExclusions(offer).Categories <==> exists r :: r in offer && IsCategoryExclusion(r) && r.Category == id
    ensures id in OfferExclusions(offer).Products <==> exists r :: r in offer && IsProductExclusion(r) && r.Product == id
    ensures id in OfferExclusions(offer).Variants <==> exists r :: r in offer && IsVariantExclusion(r) && r.Variant == id
  {
    CollectExactly(offer, CategoryLines, id);
    CollectExactly(offer, ProductLines, id);
    CollectExactly(offer, VariantLines, id);
  }

  /** `FindCategory` finds a category with the id exactly when the list holds one. */
  lemma {:induction false} FindCategoryExactly(cats: seq<CategoryBlob>, id: int)
    ensures FindCategory(cats, id).Some? ==> FindCategory(cats, id).value in cats && FindCategory(cats, id).value.RecordId == id
    ensures FindCategory(cats, id).None? ==> forall c | c in cats :: c.RecordId != id
  {
    if cats != [] && cats[0].RecordId != id {
      FindCategoryExactly(cats[1..], id);
    }
  }

  /** `FindTarget` returns the first product the line targets, and nothing only when
      no product is targeted. */
  lemma {:induction false} FindTargetFirst(r: DiscountRule, products: seq<PricedProduct>)
    ensures FindTarget(r, products).Some? ==>
      exists i :: (0 <= i < |products| && products[i] == FindTarget(r, products).value
                   && IsTargetOf(r, products[i]) && forall j :: 0 <= j < i ==> !IsTargetOf(r, products[j]))
    ensures FindTarget(r, products).None? ==> forall p | p in products :: !IsTargetOf(r, p)
  {
    if products != [] && !IsTargetOf(r, products[0]) {
      var tail := products[1..];
      FindTargetFirst(r, tail);
      var found := FindTarget(r, tail);
      if found.Some? {
        var i :| (0 <= i < |tail| && tail[i] == found.value
                  && IsTargetOf(r, tail[i]) && forall j :: 0 <= j < i ==> !IsTargetOf(r, tail[j]));
        assert products[i + 1] == found.value;
        forall j | 0 <= j < i + 1 ensures !IsTargetOf(r, products[j]) {
          if j > 0 { assert products[j] == tail[j - 1]; }
        }
      } else {
        forall p | p in products ensures !IsTargetOf(r, p) {
          if p != products[0] { assert p in tail; }
        }
      }
    }
  }

  // ------------------------------------------------------------ the walk

  /** Whatever the walk reaches from `id` is ranked no higher than `id`. */
  lemma {:induction false} InScopeRankBound(cats: seq<CategoryBlob>, exCats: seq<int>, id: int, cat: int, rank: int -> nat)
    requires RankedBy(cats, rank) && InScope(cats, exCats, id, cat, rank)
    ensures rank(cat) <= rank(id)
    decreases rank(id)
  {
    if cat != id {
      var i :| 0 <= i < |cats| && Descends(cats[i], id, exCats) && InScope(cats, exCats, cats[i].RecordId, cat, rank);
      InScopeRankBound(cats, exCats, cats[i].RecordId, cat, rank);
    }
  }

  /** The category's own products a line keeps: exactly the eligible ones. */
  lemma {:induction false} OwnMatchesExactly(r: DiscountRule, ex: Exclusions, id: int, top: bool, ps: seq<PricedProduct>)
    ensures forall m | m in OwnMatches(r, ex, id, top, ps) ::
      m.Rule == r && m.TopLevel == top && m.Product in ps && Eligible(r, ex, id, m.Product)
    ensures forall p | p in ps && Eligible(r, ex, id, p) :: Match(r, p, top) in OwnMatches(r, ex, id, top, ps)
    decreases |ps|
  {
    if ps != [] {
      var init := ps[..|ps| - 1];
      assert ps == init + [ps[|ps| - 1]];
      OwnMatchesExactly(r, ex, id, top, init);
    }
  }

  lemma {:induction false} SubtreeSound(r: DiscountRule, ex: Exclusions, products: seq<PricedProduct>, cats: seq<CategoryBlob>,
                                        id: int, top: bool, rank: int -> nat, m: Match)
    requires RankedBy(cats, rank) && m in SubtreeMatches(r, ex, products, cats, id, top, rank)
    ensures m.Rule == r && m.Product in products && !Excluded(ex, m.Product) && UomFitsExactly(r.UOM, m.Product.UOM)
    ensures InScope(cats, ex.Categories, id, m.Product.Category, rank)
    ensures m.TopLevel == (top && m.Product.Category == id)
    decreases rank(id), 1, 0
  {
    OwnMatchesExactly(r, ex, id, top, products);
    if m !in OwnMatches(r, ex, id, top, products) {
      ChildSound(r, ex, products, cats, id, |cats|, rank, m);
    }
  }

  lemma {:induction false} ChildSound(r: DiscountRule, ex: Exclusions, products: seq<PricedProduct>, cats: seq<CategoryBlob>,
                                      id: int, n: nat, rank: int -> nat, m: Match)
    requires RankedBy(cats, rank) && n <= |cats| && m in ChildMatches(r, ex, products, cats, id, n, rank)
    ensures m.Rule == r && m.Product in products && !Excluded(ex, m.Product) && UomFitsExactly(r.UOM, m.Product.UOM)
    ensures !m.TopLevel && m.Product.Category != id
    ensures exists i :: 0 <= i < n && Descends(cats[i], id, ex.Categories)
                        && InScope(cats, ex.Categories, cats[i].RecordId, m.Product.Category, rank)
    decreases rank(id), 0, n
  {
    if m in ChildMatches(r, ex, products, cats, id, n - 1, rank) {
      ChildSound(r, ex, products, cats, id, n - 1, rank, m);
    } else {
      var child := cats[n - 1].RecordId;
      SubtreeSound(r, ex, products, cats, child, false, rank, m);
      InScopeRankBound(cats, ex.Categories, child, m.Product.Category, rank);
    }
  }

  lemma {:induction false} SubtreeComplete(r: DiscountRule, ex: Exclusions, products: seq<PricedProduct>, cats: seq<CategoryBlob>,
                                           id: int, top: bool, rank: int -> nat, p: PricedProduct)
    requires RankedBy(cats, rank) && p in products && !Excluded(ex, p) && UomFitsExactly(r.UOM, p.UOM)
    requires InScope(cats, ex.Categories, id, p.Category, rank)
    ensures Match(r, p, top && p.Category == id) in SubtreeMatches(r, ex, products, cats, id, top, rank)
    decreases rank(id), 1, 0
  {
    if p.Category == id {
      OwnMatchesExactly(r, ex, id, top, products);
      assert Eligible(r, ex, id, p);
    } else {
      var i :| 0 <= i < |cats| && Descends(cats[i], id, ex.Categories)
               && InScope(cats, ex.Categories, cats[i].RecordId, p.Category, rank);
      ChildComplete(r, ex, products, cats, id, |cats|, i, rank, p);
    }
  }

  lemma {:induction false} ChildComplete(r: DiscountRule, ex: Exclusions, products: seq<PricedProduct>, cats: seq<CategoryBlob>,
                                         id: int, n: nat, i: nat, rank: int -> nat, p: PricedProduct)
    requires RankedBy(cats, rank) && i < n <= |cats| && Descends(cats[i], id, ex.Categories)
    requires InScope(cats, ex.Categories, cats[i].RecordId, p.Category, rank)
    requires p in products && !Excluded(ex, p) && UomFitsExactly(r.UOM, p.UOM)
    ensures Match(r, p, false) in ChildMatches(r, ex, products, cats, id, n, rank)
    decreases rank(id), 0, n
  {
    if i == n - 1 {
      SubtreeComplete(r, ex, products, cats, cats[i].RecordId, false, rank, p);
    } else {
      ChildComplete(r, ex, products, cats, id, n - 1, i, rank, p);
    }
  }

  /** A category walk reaches exactly the products in its scope that are neither
      excluded nor of another UOM, each once per path, flagged top-level exactly
      when the product sits in the walk's own category. */
  lemma SubtreeMatchesExactly(r: DiscountRule, ex: Exclusions, products: seq<PricedProduct>, cats: seq<CategoryBlob>,
                              id: int, top: bool, rank: int -> nat, m: Match)
    requires RankedBy(cats, rank)
    ensures m in SubtreeMatches(r, ex, products, cats, id, top, rank) <==>
      m.Rule == r && m.Product in products && !Excluded(ex, m.Product) && UomFitsExactly(r.UOM, m.Product.UOM)
      && InScope(cats, ex.Categories, id, m.Product.Category, rank)
      && m.TopLevel == (top && m.Product.Category == id)
  {
    if m in SubtreeMatches(r, ex, products, cats, id, top, rank) {
      SubtreeSound(r, ex, products, cats, id, top, rank, m);
    } else if m.Rule == r && m.Product in products && !Excluded(ex, m.Product) && UomFitsExactly(r.UOM, m.Product.UOM)
              && InScope(cats, ex.Categories, id, m.Product.Category, rank) {
      SubtreeComplete(r, ex, products, cats, id, top, rank, m.Product);
    }
  }

  // ------------------------------------------------------------ pruning

  /** No two entries of the category list share an id. */
  predicate UniqueIds(cats: seq<CategoryBlob>) {
    forall i, j :: 0 <= i < |cats| && 0 <= j < |cats| && cats[i].RecordId == cats[j].RecordId ==> i == j
  }

  /** Category `c` lies in the subtree of `x`, exclusions aside. */
  ghost predicate Below(cats: seq<CategoryBlob>, x: int, c: int, rank: int -> nat)
    requires RankedBy(cats, rank)
  {
    InScope(cats, [], x, c, rank)
  }

  /** A category strictly below `x` has an entry whose parent is itself below `x`. */
  lemma {:induction false} LastEdge(cats: seq<CategoryBlob>, x: int, c: int, rank: int -> nat)
    requires RankedBy(cats, rank) && Below(cats, x, c, rank) && c != x
    ensures exists k :: 0 <= k < |cats| && cats[k].RecordId == c && cats[k].ParentCategory.Some?
                        && Below(cats, x, cats[k].ParentCategory.value, rank)
    decreases rank(x)
  {
    var i :| 0 <= i < |cats| && Descends(cats[i], x, []) && InScope(cats, [], cats[i].RecordId, c, rank);
    if cats[i].RecordId == c {
      assert cats[i].ParentCategory.value == x;
    } else {
      LastEdge(cats, cats[i].RecordId, c, rank);
      var k :| 0 <= k < |cats| && cats[k].RecordId == c && cats[k].ParentCategory.Some?
               && Below(cats, cats[i].RecordId, cats[k].ParentCategory.value, rank);
      assert Below(cats, x, cats[k].ParentCategory.value, rank);
    }
  }

  /** Reaching, from `id`, a category below the excluded category `x` means `id`
      itself lies below `x`: an excluded category cuts off its whole subtree, and
      only a walk that starts inside it (the walk's own category is never checked)
      gets in. */
  lemma {:induction false} ReachedBelowExcludedOnlyFromInside(cats: seq<CategoryBlob>, exCats: seq<int>, id: int, x: int,
                                                              c: int, rank: int -> nat)
    requires RankedBy(cats, rank) && UniqueIds(cats) && x in exCats
    requires InScope(cats, exCats, id, c, rank)
    ensures Below(cats, x, c, rank) ==> Below(cats, x, id, rank)
    decreases rank(id)
  {
    if c != id && Below(cats, x, c, rank) {
      var i :| 0 <= i < |cats| && Descends(cats[i], id, exCats) && InScope(cats, exCats, cats[i].RecordId, c, rank);
      var child := cats[i].RecordId;
      ReachedBelowExcludedOnlyFromInside(cats, exCats, child, x, c, rank);
      LastEdge(cats, x, child, rank);
      var k :| 0 <= k < |cats| && cats[k].RecordId == child && cats[k].ParentCategory.Some?
               && Below(cats, x, cats[k].ParentCategory.value, rank);
      assert k == i;
    }
  }

  /** A category line emits nothing from the subtree of an excluded category that
      does not contain the line's own category. */
  lemma ExcludedCategoryPrunesSubtree(r: DiscountRule, ex: Exclusions, products: seq<PricedProduct>, cats: seq<CategoryBlob>,
                                      id: int, top: bool, rank: int -> nat, x: int)
    requires RankedBy(cats, rank) && UniqueIds(cats)
    requires x in ex.Categories && !Below(cats, x, id, rank)
    ensures forall m | m in SubtreeMatches(r, ex, products, cats, id, top, rank) :: !Below(cats, x, m.Product.Category, rank)
  {
    forall m | m in SubtreeMatches(r, ex, products, cats, id, top, rank)
      ensures !Below(cats, x, m.Product.Category, rank)
    {
      SubtreeSound(r, ex, products, cats, id, top, rank, m);
      ReachedBelowExcludedOnlyFromInside(cats, ex.Categories, id, x, m.Product.Category, rank);
    }
  }

  /** The walk's own category is walked even when an Exclude line names it. */
  lemma TargetCategoryNotCheckedAgainstExclusions(r: DiscountRule, ex: Exclusions, products: seq<PricedProduct>,
                                                  cats: seq<CategoryBlob>, id: int, rank: int -> nat, p: PricedProduct)
    requires RankedBy(cats, rank) && id in ex.Categories
    requires p in products && Eligible(r, ex, id, p)
    ensures Match(r, p, true) in SubtreeMatches(r, ex, products, cats, id, true, rank)
  {
    OwnMatchesExactly(r, ex, id, true, products);
  }

  // ------------------------------------------------------------ one line

  /** What one Include line contributes, and nothing from an Exclude line. */
  lemma {:induction false} RuleMatchesOrigin(kind: PromotionType, r: DiscountRule, ex: Exclusions, products: seq<PricedProduct>,
                                             cats: seq<CategoryBlob>, rank: int -> nat, m: Match)
    requires RankedBy(cats, rank) && m in RuleMatches(kind, r, ex, products, cats, rank)
    ensures m.Rule == r && r.LineType == 0 && !Inert(kind, r) && m.Product in products
    ensures IsProductRule(r) ==> m.TopLevel && IsTargetOf(r, m.Product)
    ensures !IsProductRule(r) ==>
      IsCategoryRule(r) && (exists c :: c in cats && c.RecordId == r.Category)
      && !Excluded(ex, m.Product) && UomFitsExactly(r.UOM, m.Product.UOM)
      && InScope(cats, ex.Categories, r.Category, m.Product.Category, rank)
      && m.TopLevel == (m.Product.Category == r.Category)
  {
    FindTargetFirst(r, products);
    if !IsProductRule(r) {
      SubtreeSound(r, ex, products, cats, r.Category, true, rank, m);
      FindCategoryExactly(cats, r.Category);
      assert FindCategory(cats, r.Category).value in cats;
    }
  }

  /** A product line yields at most one match: the first product carrying the
      line's variant (else product) id with a UOM equal ignoring case. */
  lemma ProductRuleMatchesFirstTarget(kind: PromotionType, r: DiscountRule, ex: Exclusions, products: seq<PricedProduct>,
                                      cats: seq<CategoryBlob>, rank: int -> nat)
    requires RankedBy(cats, rank) && IsProductRule(r) && !Inert(kind, r)
    ensures |RuleMatches(kind, r, ex, products, cats, rank)| <= 1
    ensures RuleMatches(kind, r, ex, products, cats, rank) == [] <==> forall p | p in products :: !IsTargetOf(r, p)
    ensures forall m | m in RuleMatches(kind, r, ex, products, cats, rank) ::
      m.TopLevel && exists i :: (0 <= i < |products| && products[i] == m.Product && IsTargetOf(r, products[i])
                                 && forall j :: 0 <= j < i ==> !IsTargetOf(r, products[j]))
  {
    FindTargetFirst(r, products);
    var found := FindTarget(r, products);
    if found.Some? {
      var i :| (0 <= i < |products| && products[i] == found.value
                && IsTargetOf(r, products[i]) && forall j :: 0 <= j < i ==> !IsTargetOf(r, products[j]));
      assert products[i] in products;
    }
  }

  /** Product lines do not consult the offer's exclusion lists. */
  lemma ProductRuleIgnoresExclusions(kind: PromotionType, r: DiscountRule, ex1: Exclusions, ex2: Exclusions,
                                     products: seq<PricedProduct>, cats: seq<CategoryBlob>, rank: int -> nat)
    requires RankedBy(cats, rank) && IsProductRule(r)
    ensures RuleMatches(kind, r, ex1, products, cats, rank) == RuleMatches(kind, r, ex2, products, cats, rank)
  {
  }

  /** A category line emits every product in its scope that is neither excluded nor
      of another UOM, provided its category is listed. */
  lemma CategoryRuleMatchesComplete(kind: PromotionType, r: DiscountRule, ex: Exclusions, products: seq<PricedProduct>,
                                    cats: seq<CategoryBlob>, rank: int -> nat, p: PricedProduct)
    requires RankedBy(cats, rank) && IsCategoryRule(r) && !Inert(kind, r)
    requires exists c :: c in cats && c.RecordId == r.Category
    requires p in products && !Excluded(ex, p) && UomFitsExactly(r.UOM, p.UOM)
    requires InScope(cats, ex.Categories, r.Category, p.Category, rank)
    ensures Match(r, p, p.Category == r.Category) in RuleMatches(kind, r, ex, products, cats, rank)
  {
    FindCategoryExactly(cats, r.Category);
    SubtreeComplete(r, ex, products, cats, r.Category, true, rank, p);
  }

  // ------------------------------------------------------------ one pass

  /** The lines of the offer `offerId`, in input order. */
  function OfferOf(rules: seq<DiscountRule>, offerId: string): seq<DiscountRule> {
    Grouping.Members(rules, OfferIdOf, offerId)
  }

  /** The lines of an offer are exactly the input lines with its id. */
  lemma OfferOfExactly(rules: seq<DiscountRule>, offerId: string)
    ensures forall r | r in OfferOf(rules, offerId) :: r in rules && r.OfferId == offerId
    ensures forall r | r in rules && r.OfferId == offerId :: r in OfferOf(rules, offerId)
  {
    Grouping.MembersExactly(rules, OfferIdOf, offerId);
  }

  lemma {:induction false} RulesMatchesOrigin(kind: PromotionType, offer: seq<DiscountRule>, n: nat, products: seq<PricedProduct>,
                                              cats: seq<CategoryBlob>, rank: int -> nat, m: Match)
    requires RankedBy(cats, rank) && n <= |offer| && m in RulesMatches(kind, offer, n, products, cats, rank)
    ensures exists k :: 0 <= k < n && m in RuleMatches(kind, offer[k], OfferExclusions(offer), products, cats, rank)
  {
    var prev := RulesMatches(kind, offer, n - 1, products, cats, rank);
    var last := RuleMatches(kind, offer[n - 1], OfferExclusions(offer), products, cats, rank);
    assert RulesMatches(kind, offer, n, products, cats, rank) == prev + last;
    if m !in last {
      assert m in prev;
      RulesMatchesOrigin(kind, offer, n - 1, products, cats, rank, m);
    }
  }

  lemma {:induction false} OffersMatchesOrigin(kind: PromotionType, offers: seq<seq<DiscountRule>>, n: nat,
                                               products: seq<PricedProduct>, cats: seq<CategoryBlob>, rank: int -> nat, m: Match)
    requires RankedBy(cats, rank) && n <= |offers| && m in OffersMatches(kind, offers, n, products, cats, rank)
    ensures exists o :: 0 <= o < n && m in OfferMatches(kind, offers[o], products, cats, rank)
  {
    if m !in OfferMatches(kind, offers[n - 1], products, cats, rank) {
      OffersMatchesOrigin(kind, offers, n - 1, products, cats, rank, m);
    }
  }

  lemma {:induction false} RulesMatchesContain(kind: PromotionType, offer: seq<DiscountRule>, n: nat, k: nat,
                                               products: seq<PricedProduct>, cats: seq<CategoryBlob>, rank: int -> nat, m: Match)
    requires RankedBy(cats, rank) && k < n <= |offer|
    requires m in RuleMatches(kind, offer[k], OfferExclusions(offer), products, cats, rank)
    ensures m in RulesMatches(kind, offer, n, products, cats, rank)
  {
    assert RulesMatches(kind, offer, n, products, cats, rank)
      == RulesMatches(kind, offer, n - 1, products, cats, rank)
         + RuleMatches(kind, offer[n - 1], OfferExclusions(offer), products, cats, rank);
    if k < n - 1 {
      RulesMatchesContain(kind, offer, n - 1, k, products, cats, rank, m);
    }
  }

  lemma {:induction false} OffersMatchesContain(kind: PromotionType, offers: seq<seq<DiscountRule>>, n: nat, o: nat,
                                                products: seq<PricedProduct>, cats: seq<CategoryBlob>, rank: int -> nat, m: Match)
    requires RankedBy(cats, rank) && o < n <= |offers|
    requires m in OfferMatches(kind, offers[o], products, cats, rank)
    ensures m in OffersMatches(kind, offers, n, products, cats, rank)
  {
    assert OffersMatches(kind, offers, n, products, cats, rank)
      == OffersMatches(kind, offers, n - 1, products, cats, rank) + OfferMatches(kind, offers[n - 1], products, cats, rank);
    if o < n - 1 {
      OffersMatchesContain(kind, offers, n - 1, o, products, cats, rank, m);
    }
  }

  // ------------------------------------------------------------ prefixes

  lemma {:induction false} OwnMatchesPrefix(r: DiscountRule, ex: Exclusions, id: int, top: bool, ps: seq<PricedProduct>, j: nat)
    requires j <= |ps|
    ensures OwnMatches(r, ex, id, top, ps[..j]) <= OwnMatches(r, ex, id, top, ps)
    decreases |ps| - j
  {
    if j < |ps| {
      var init := ps[..|ps| - 1];
      assert init[..j] == ps[..j];
      OwnMatchesPrefix(r, ex, id, top, init, j);
    } else {
      assert ps[..j] == ps;
    }
  }

  lemma {:induction false} ChildMatchesPrefix(r: DiscountRule, ex: Exclusions, products: seq<PricedProduct>, cats: seq<CategoryBlob>,
                                              id: int, k: nat, n: nat, rank: int -> nat)
    requires RankedBy(cats, rank) && k <= n <= |cats|
    ensures ChildMatches(r, ex, products, cats, id, k, rank) <= ChildMatches(r, ex, products, cats, id, n, rank)
    decreases n
  {
    if k < n {
      ChildMatchesPrefix(r, ex, products, cats, id, k, n - 1, rank);
    }
  }

  lemma PrefixOfAppend<T>(a: seq<T>, b: seq<T>, c: seq<T>)
    requires a <= b
    ensures a <= b + c
  {
    assert (b + c)[..|a|] == b[..|a|];
  }

  lemma {:induction false} RulesMatchesPrefix(kind: PromotionType, offer: seq<DiscountRule>, k: nat, n: nat,
                                              products: seq<PricedProduct>, cats: seq<CategoryBlob>, rank: int -> nat)
    requires RankedBy(cats, rank) && k <= n <= |offer|
    ensures RulesMatches(kind, offer, k, products, cats, rank) <= RulesMatches(kind, offer, n, products, cats, rank)
    decreases n
  {
    if k < n {
      var prev := RulesMatches(kind, offer, n - 1, products, cats, rank);
      var last := RuleMatches(kind, offer[n - 1], OfferExclusions(offer), products, cats, rank);
      RulesMatchesPrefix(kind, offer, k, n - 1, products, cats, rank);
      assert RulesMatches(kind, offer, n, products, cats, rank) == prev + last;
      PrefixOfAppend(RulesMatches(kind, offer, k, products, cats, rank), prev, last);
    }
  }

  lemma {:induction false} OffersMatchesPrefix(kind: PromotionType, offers: seq<seq<DiscountRule>>, k: nat, n: nat,
                                               products: seq<PricedProduct>, cats: seq<CategoryBlob>, rank: int -> nat)
    requires RankedBy(cats, rank) && k <= n <= |offers|
    ensures OffersMatches(kind, offers, k, products, cats, rank) <= OffersMatches(kind, offers, n, products, cats, rank)
    decreases n
  {
    if k < n {
      var prev := OffersMatches(kind, offers, n - 1, products, cats, rank);
      var last := OfferMatches(kind, offers[n - 1], products, cats, rank);
      OffersMatchesPrefix(kind, offers, k, n - 1, products, cats, rank);
      assert OffersMatches(kind, offers, n, products, cats, rank) == prev + last;
      PrefixOfAppend(OffersMatches(kind, offers, k, products, cats, rank), prev, last);
    }
  }

  /** Every match of a pass comes from an Include line of the input that is not
      skipped, and obeys the line's targeting with the exclusions of its own offer. */
  lemma EngineMatchesOrigin(kind: PromotionType, rules: seq<DiscountRule>, products: seq<PricedProduct>,
                            cats: seq<CategoryBlob>, rank: int -> nat, m: Match)
    requires RankedBy(cats, rank) && m in EngineMatches(kind, rules, products, cats, rank)
    ensures m.Rule in rules && m.Rule.LineType == 0 && !Inert(kind, m.Rule) && m.Product in products
    ensures IsProductRule(m.Rule) ==> m.TopLevel && IsTargetOf(m.Rule, m.Product)
    ensures !IsProductRule(m.Rule) ==>
      var ex := OfferExclusions(OfferOf(rules, m.Rule.OfferId));
      IsCategoryRule(m.Rule) && !Excluded(ex, m.Product) && UomFitsExactly(m.Rule.UOM, m.Product.UOM)
      && InScope(cats, ex.Categories, m.Rule.Category, m.Product.Category, rank)
      && m.TopLevel == (m.Product.Category == m.Rule.Category)
  {
    var offers := Offers(rules);
    OffersMatchesOrigin(kind, offers, |offers|, products, cats, rank, m);
    var o :| 0 <= o < |offers| && m in OfferMatches(kind, offers[o], products, cats, rank);
    OfferMatchOrigin(kind, rules, o, products, cats, rank, m);
  }

  /** A match of the `o`-th offer comes from one of its lines, judged with the
      exclusions of all the lines of its offer id. */
  lemma OfferMatchOrigin(kind: PromotionType, rules: seq<DiscountRule>, o: nat, products: seq<PricedProduct>,
                         cats: seq<CategoryBlob>, rank: int -> nat, m: Match)
    requires RankedBy(cats, rank) && o < |Offers(rules)| && m in OfferMatches(kind, Offers(rules)[o], products, cats, rank)
    ensures m.Rule in rules && m.Rule.LineType == 0 && !Inert(kind, m.Rule) && m.Product in products
    ensures IsProductRule(m.Rule) ==> m.TopLevel && IsTargetOf(m.Rule, m.Product)
    ensures !IsProductRule(m.Rule) ==>
      var ex := OfferExclusions(OfferOf(rules, m.Rule.OfferId));
      IsCategoryRule(m.Rule) && !Excluded(ex, m.Product) && UomFitsExactly(m.Rule.UOM, m.Product.UOM)
      && InScope(cats, ex.Categories, m.Rule.Category, m.Product.Category, rank)
      && m.TopLevel == (m.Product.Category == m.Rule.Category)
  {
    var offer := Offers(rules)[o];
    var ks := Grouping.Keys(rules, OfferIdOf);
    RulesMatchesOrigin(kind, offer, |offer|, products, cats, rank, m);
    var k :| 0 <= k < |offer| && m in RuleMatches(kind, offer[k], OfferExclusions(offer), products, cats, rank);
    RuleMatchesOrigin(kind, offer[k], OfferExclusions(offer), products, cats, rank, m);
    assert offer == Grouping.Members(rules, OfferIdOf, ks[o]);
    Grouping.MembersExactly(rules, OfferIdOf, ks[o]);
    assert offer[k] in offer;
    assert m.Rule.OfferId == ks[o];
  }

  /** Every product in scope of an Include category line of the input is emitted,
      with the exclusions of the line's own offer and no other. */
  lemma EngineMatchesComplete(kind: PromotionType, rules: seq<DiscountRule>, products: seq<PricedProduct>,
                              cats: seq<CategoryBlob>, rank: int -> nat, r: DiscountRule, p: PricedProduct)
    requires RankedBy(cats, rank) && r in rules && IsCategoryRule(r) && !Inert(kind, r)
    requires exists c :: c in cats && c.RecordId == r.Category
    requires var ex := OfferExclusions(OfferOf(rules, r.OfferId));
      p in products && !Excluded(ex, p) && UomFitsExactly(r.UOM, p.UOM)
      && InScope(cats, ex.Categories, r.Category, p.Category, rank)
    ensures Match(r, p, p.Category == r.Category) in EngineMatches(kind, rules, products, cats, rank)
  {
    var offers := Offers(rules);
    var ks := Grouping.Keys(rules, OfferIdOf);
    Grouping.KeysExactly(rules, OfferIdOf);
    Grouping.MembersExactly(rules, OfferIdOf, r.OfferId);
    var o :| 0 <= o < |ks| && ks[o] == r.OfferId;
    var offer := offers[o];
    assert offer == OfferOf(rules, r.OfferId);
    var k :| 0 <= k < |offer| && offer[k] == r;
    CategoryRuleMatchesComplete(kind, r, OfferExclusions(offer), products, cats, rank, p);
    RulesMatchesContain(kind, offer, |offer|, k, products, cats, rank, Match(r, p, p.Category == r.Category));
    OffersMatchesContain(kind, offers, |offers|, o, products, cats, rank, Match(r, p, p.Category == r.Category));
  }

  /** Every product line of the input whose target exists is emitted once per occurrence. */
  lemma EngineMatchesProductTarget(kind: PromotionType, rules: seq<DiscountRule>, products: seq<PricedProduct>,
                                   cats: seq<CategoryBlob>, rank: int -> nat, r: DiscountRule, p: PricedProduct)
    requires RankedBy(cats, rank) && r in rules && IsProductRule(r) && !Inert(kind, r)
    requires FindTarget(r, products) == Some(p)
    ensures Match(r, p, true) in EngineMatches(kind, rules, products, cats, rank)
  {
    var offers := Offers(rules);
    var ks := Grouping.Keys(rules, OfferIdOf);
    Grouping.KeysExactly(rules, OfferIdOf);
    Grouping.MembersExactly(rules, OfferIdOf, r.OfferId);
    var o :| 0 <= o < |ks| && ks[o] == r.OfferId;
    var offer := offers[o];
    assert offer == Grouping.Members(rules, OfferIdOf, r.OfferId);
    var k :| 0 <= k < |offer| && offer[k] == r;
    RulesMatchesContain(kind, offer, |offer|, k, products, cats, rank, Match(r, p, true));
    OffersMatchesContain(kind, offers, |offers|, o, products, cats, rank, Match(r, p, true));
  }

  /** Membership in an offer's exclusion lists is decided by the offer's lines as a
      collection: reordering the lines changes nothing. */
  lemma ExclusionsIgnoreLineOrder(o1: seq<DiscountRule>, o2: seq<DiscountRule>, id: int)
    requires multiset(o1) == multiset(o2)
    ensures id in OfferExclusions(o1).Categories <==> id in OfferExclusions(o2).Categories
    ensures id in OfferExclusions(o1).Products <==> id in OfferExclusions(o2).Products
    ensures id in OfferExclusions(o1).Variants <==> id in OfferExclusions(o2).Variants
  {
    OfferExclusionsExactly(o1, id);
    OfferExclusionsExactly(o2, id);
    forall r ensures r in o1 <==> r in o2 {
      assert r in o1 <==> r in multiset(o1);
      assert r in o2 <==> r in multiset(o2);
    }
  }

  /** Overlapping lines are not deduplicated: a line repeated in an offer emits its
      matches twice. */
  lemma RepeatedLineEmitsTwice(kind: PromotionType, r: DiscountRule, products: seq<PricedProduct>,
                               cats: seq<CategoryBlob>, rank: int -> nat)
    requires RankedBy(cats, rank)
    ensures var ex := OfferExclusions([r, r]);
      OfferMatches(kind, [r, r], products, cats, rank)
      == RuleMatches(kind, r, ex, products, cats, rank) + RuleMatches(kind, r, ex, products, cats, rank)
  {
    var offer := [r, r];
    var ex := OfferExclusions(offer);
    assert RulesMatches(kind, offer, 1, products, cats, rank) == RuleMatches(kind, r, ex, products, cats, rank);
  }

  /** An empty rule list matches nothing. */
  lemma NoRulesNoMatches(kind: PromotionType, products: seq<PricedProduct>, cats: seq<CategoryBlob>, rank: int -> nat)
    requires RankedBy(cats, rank)
    ensures EngineMatches(kind, [], products, cats, rank) == []
  {
  }
}
