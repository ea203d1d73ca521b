# Promotional price resolution, modelled in Dafny

This project models the price job of a commerce integration that reads products,
categories, base prices and discount lines from Dynamics 365 and produces price feeds
for a web store. The modelled parts are:

- **Base prices** (`PriceController`). The value taken from each D365 price is the
  trade-agreement price when it is positive, else the base price, rounded to cents with
  ties going to the even cent. Each batch of products is joined with the prices
  returned for it. The model also computes the ids whose price must be asked for again.
- **Scope expansion** (`SpecialPriceHelper`, `TierPriceHelper`, `DealPriceHelper`).
  - Discount lines are grouped by offer id.
  - A product line names one priced product: by variant id, else by product id, with
    a unit of measure that is equal ignoring case.
  - A category line names every product of its category and of its subcategories.
    Products and variants named by the offer's Exclude lines are left out, and so are
    products whose unit of measure is not exactly equal. A subcategory named by an
    Exclude line is pruned together with everything below it.
- **Price calculators and rows**:
  - the special price takes a percentage off, else an amount off, else uses the offer
    price;
  - the tier price spreads the amount over the lowest quantity, and a zero quantity
    throws;
  - deal rows carry the offer price and are merged per offer into one row with the
    joined SKUs and the total discount.
- **The three helpers' loops**, as imperative methods. The recursive
  `GetSubCategory*` walk and the nested offer/line loops are each proved to compute the
  rows of the scope expansion.
- **The job's dispatch** (`FunctionHelper`). Nothing runs without priced products.
  Price type `base` sends the base feed, deduplicated on (SKU, price). Any other price
  type fetches the categories, then runs the special, tier or deal pass whose name it
  matches, ignoring case.
- **Product mapping** (`ProductController`):
  - `BuildCategoryHierachy` walks each category's parent chain into a root-first path
    joined by `/`, writing the retail root as `Default Category`; `GetCategoryHirarchy`
    reads that dictionary;
  - the translated custom-attribute lookups with their `en-us` fallback;
  - the expansion of master products into one product per variant;
  - the taxonomy names, the `additional_attributes` text and the `ProductEntity` of
    each product.

The files are as follows:

- Shared modules:
  - `wrappers.dfy`: `Option` and `Result`.
  - `text.dfy`: the string operations the source uses.
  - `grouping.dfy`: LINQ `GroupBy`.
  - `money.dfy`: `Math.Round(x, 2)`.
- Promotion passes:
  - `scope.dfy` and `scope_props.dfy`: the scope expansion as functions, and what it
    reaches.
  - `pricing.dfy`: the calculators and the rows.
  - `engine.dfy`: the helpers' loops.
  - `deals.dfy`: the deal merge.
- Base prices and dispatch:
  - `baseprices.dfy`: the base-price join.
  - `pricejob.dfy`: the base feed and the dispatch.
- Product mapping:
  - `hierarchy.dfy` and `hierarchy_props.dfy`: the category dictionary.
  - `products.dfy` and `products_props.dfy`: the product mapping.

How the source is represented:

- Every remote call, blob read, upload and message send is a parameter or is left out.
- The loops a source method runs become `method`s with loop invariants. Each is proved
  equal to a specification function, and the properties are proved about those
  functions as lemmas.
- Decimals are `real`.
- Termination of the category walks is carried by ghost rankings of category ids
  (`ScopeExpansion.RankedBy`, `CategoryHierarchy.WalkRanked`). Which inputs they rule
  out is listed under "Left out".

Three behaviours of the code that the model follows:

- **Unit of measure.** All three helpers use the same tests. A product line compares
  units ignoring case (`TierPriceHelper.cs:102-106`, and likewise in the other two
  helpers). Category lines and subcategories compare them exactly.
- **Missing parent.** A category whose positive parent id no category carries is not
  treated as a root: `BuildCategoryHierachy` dereferences null there
  (`ProductController.cs:422-423`). The model makes this a `MissingParent` failure of
  the whole dictionary.
- **Tier quantity.** The quantity of a tier row is rounded to two decimals on a
  top-level line (`TierPriceHelper.cs:114`) and written unrounded for subcategories
  (`TierPriceHelper.cs:195`). Rows carry the number, and `Match.TopLevel` selects the
  rounding.

## Model

| member | source | states |
|---|---|---|
| Text.Lower | SpecialPriceHelper.cs:107 | lower-casing keeps the length and lowers each letter in place |
| Text.Reverse | ProductController.cs:433 | the reversed list has the same length, element i being element n-1-i |
| Text.PrefixBefore | ProductController.cs:153 | `Split('-')[0]`: a prefix of the text without the separator, followed in the text by the separator unless it is the whole text |
| Grouping.KeysExactly | SpecialPriceHelper.cs:89 | the group keys are distinct and are exactly the keys of the elements |
| Grouping.MembersExactly | SpecialPriceHelper.cs:89 | a group holds exactly the elements with its key, each as often as in the input and in input order, and is empty exactly when the key does not occur |
| Grouping.GroupsPartition | DealPriceHelper.cs:47 | the groups partition the input: none is empty, each holds only input elements with its own key, no two share a key, and every element is in some group |
| Grouping.FirstIndex | DealPriceHelper.cs:53 | the position of the first element with the key: it has the key and no earlier element does |
| Grouping.MembersStartWithFirst | DealPriceHelper.cs:53-60 | every group is non-empty and `FirstOrDefault()` of it is the first input element with its key |
| Grouping.KeysInOrderOfFirstAppearance | TierPriceHelper.cs:89 | groups come in order of the first appearance of their keys |
| Money.RoundHalfEven | PriceController.cs:130 | the nearest integer, within one half, a tie going to the even one, an integer kept |
| Money.RoundCents | PriceController.cs:130 | `Math.Round(x, 2)` gives whole cents within half a cent of x |
| Money.RoundCentsKeepsCents | PriceController.cs:130 | rounding a whole number of cents changes nothing, so rounding twice is rounding once |
| Money.RoundCentsTieToEven | PriceController.cs:130 | a value half-way between two cents goes to the even cent (banker's rounding) |
| BasePrices.ChosenPrice | PriceController.cs:123-128 | the trade-agreement price when positive, else the base price, a null counting as zero; it is always one of the two, and positive exactly when either of them is |
| BasePrices.BasePriceValue | PriceController.cs:121-131 | the base price value is whole cents within half a cent of the chosen price |
| BasePrices.BasePriceValueKeepsCents | PriceController.cs:130 | a chosen price already in cents is returned unchanged |
| BasePrices.TradeAgreementWins | PriceController.cs:123-128 | with a positive trade-agreement price the base price has no influence |
| BasePrices.FirstPriceExactly | PriceController.cs:46 | the price found for a product is its first price, and none is found only when no price carries its id |
| BasePrices.JoinBatch | PriceController.cs:44-60 | the batch loop yields exactly the items of the batch join, in batch order |
| BasePrices.BatchItemsExactly | PriceController.cs:44-60 | a product gets an item (its SKU, UOM, category, id and the value of its first price) exactly when some price carries its id; nothing else is added |
| BasePrices.MissingIdsExactly | PriceController.cs:108 | the missing ids are exactly the batch ids that no returned price carries, each as often as in the batch and in batch order |
| BasePrices.RetryIds | PriceController.cs:104-116 | a retry happens exactly when the call returned prices and some id got none, and it asks for those ids |
| BasePrices.RetryShrinks | PriceController.cs:108-112 | a retry asks only for unpriced ids of the batch, so when one id was priced the retry's list is strictly shorter than the batch |
| ScopeProperties.CollectExactly | SpecialPriceHelper.cs:133-135 | an id is in an exclusion list exactly when an Exclude line of that shape names it |
| ScopeProperties.OfferExclusionsExactly | SpecialPriceHelper.cs:133-135 | the three exclusion lists hold exactly the categories, products and variants named by the offer's Exclude lines |
| ScopeProperties.ExclusionsIgnoreLineOrder | SpecialPriceHelper.cs:133-135 | reordering an offer's lines does not change which ids are excluded |
| ScopeProperties.FindCategoryExactly | SpecialPriceHelper.cs:132 | the category found carries the id, and none is found only when no category has it |
| ScopeProperties.FindTargetFirst | SpecialPriceHelper.cs:105-112 | a product line's target is the first product with the variant (else product) id and a UOM equal ignoring case; none only when no product qualifies |
| ScopeProperties.OwnMatchesExactly | SpecialPriceHelper.cs:142-167 | a category's own loop matches exactly its products that are not excluded and whose UOM is empty-or-exactly-equal |
| ScopeProperties.InScopeRankBound | SpecialPriceHelper.cs:215-221 | the walk only reaches categories ranked no higher than where it starts, so the recursion ends |
| ScopeProperties.SubtreeSound | SpecialPriceHelper.cs:184-224 | every match of a category walk is an eligible product of a category in scope, top-level exactly in the starting category |
| ScopeProperties.ChildSound | SpecialPriceHelper.cs:215-221 | a match from the children loop comes from a child the walk descends into and is never top-level |
| ScopeProperties.SubtreeComplete | SpecialPriceHelper.cs:184-224 | every eligible product of a category in scope is matched by the walk |
| ScopeProperties.ChildComplete | SpecialPriceHelper.cs:215-221 | every eligible product under a descended child is matched by the children loop |
| ScopeProperties.SubtreeMatchesExactly | SpecialPriceHelper.cs:184-224 | a walk matches a product exactly when it is in scope, not excluded and of a fitting UOM, with the top-level flag set exactly in the starting category |
| ScopeProperties.LastEdge | SpecialPriceHelper.cs:215 | a category strictly below another has a listed parent entry that is itself below it |
| ScopeProperties.ReachedBelowExcludedOnlyFromInside | SpecialPriceHelper.cs:215-221 | the walk reaches below an excluded category only when it started below it |
| ScopeProperties.ExcludedCategoryPrunesSubtree | SpecialPriceHelper.cs:169-175 | a category line emits nothing from under an excluded category that does not contain the line's own category |
| ScopeProperties.TargetCategoryNotCheckedAgainstExclusions | SpecialPriceHelper.cs:132-142 | the line's own category is walked even when an Exclude line names it |
| ScopeProperties.RuleMatchesOrigin | SpecialPriceHelper.cs:96-176 | a line contributes only if it is an Include line that is not skipped; a product line gives its target; a category line contributes only when its category is listed, and then only eligible products of its walk |
| ScopeProperties.ProductRuleMatchesFirstTarget | SpecialPriceHelper.cs:103-129 | a product line gives at most one match, none exactly when no product is its target |
| ScopeProperties.ProductRuleIgnoresExclusions | SpecialPriceHelper.cs:103-129 | product lines do not consult the offer's exclusion lists |
| ScopeProperties.CategoryRuleMatchesComplete | SpecialPriceHelper.cs:130-176 | a category line whose category is listed emits every eligible product in its scope |
| ScopeProperties.OfferOfExactly | SpecialPriceHelper.cs:89 | the lines of an offer are exactly the input lines with its id |
| ScopeProperties.RulesMatchesOrigin | SpecialPriceHelper.cs:94 | a match of an offer's lines comes from one of them, judged with the whole offer's exclusions |
| ScopeProperties.OffersMatchesOrigin | SpecialPriceHelper.cs:92 | a match of the offers comes from one of them |
| ScopeProperties.RulesMatchesContain | SpecialPriceHelper.cs:94 | every match of a line is among the matches of its offer |
| ScopeProperties.OffersMatchesContain | SpecialPriceHelper.cs:92 | every match of an offer is among the matches of the pass |
| ScopeProperties.OwnMatchesPrefix | SpecialPriceHelper.cs:144 | the loop over a category's products only appends |
| ScopeProperties.ChildMatchesPrefix | SpecialPriceHelper.cs:215 | the loop over the children only appends |
| ScopeProperties.RulesMatchesPrefix | SpecialPriceHelper.cs:94 | the loop over an offer's lines only appends |
| ScopeProperties.OffersMatchesPrefix | SpecialPriceHelper.cs:92 | the loop over the offers only appends |
| ScopeProperties.EngineMatchesOrigin | SpecialPriceHelper.cs:87-182 | every match of a pass comes from a non-skipped Include line of the input and obeys its targeting with its own offer's exclusions; a category line's match is top-level exactly in the line's own category |
| ScopeProperties.OfferMatchOrigin | SpecialPriceHelper.cs:89-94 | a match of the o-th offer group comes from one of its lines, with the exclusions of all lines of that offer id, top-level exactly in a category line's own category |
| ScopeProperties.EngineMatchesComplete | SpecialPriceHelper.cs:87-182 | every eligible product in scope of an Include category line of the input is emitted |
| ScopeProperties.EngineMatchesProductTarget | SpecialPriceHelper.cs:103-129 | every non-skipped product line whose target exists emits it |
| ScopeProperties.RepeatedLineEmitsTwice | SpecialPriceHelper.cs:92-94 | overlapping lines are not deduplicated: a repeated line emits its matches twice |
| ScopeProperties.NoRulesNoMatches | SpecialPriceHelper.cs:87-91 | no discount lines give no rows |
| PriceCalculators.DiscountPrice | SpecialPriceHelper.cs:226-240 | a percentage off when positive, else an amount off when positive, else the offer price |
| PriceCalculators.QuantityDiscountPrice | TierPriceHelper.cs:217-231 | as the special price but with the amount divided by the lowest quantity; fails exactly on a zero quantity in that branch |
| PriceCalculators.MakeRowShape | SpecialPriceHelper.cs:116-127 | special, tier and deal rows carry the product's SKU, the line's price, the constants written and (tier) the rounded quantity on a top-level line; only a tier row can fail |
| PriceCalculators.RowsMeaning | TierPriceHelper.cs:121 | a pass fails exactly when one of its matches fails, else gives one row per match in order |
| PriceCalculators.RowsConcat | TierPriceHelper.cs:165 | the rows of appended matches are the appended rows, keeping the first failure |
| PriceCalculators.OnlyTierRowsFail | TierPriceHelper.cs:217-231 | special and deal passes never fail; a tier pass fails exactly when a match's line divides by zero |
| PriceCalculators.PercentDiscountBounds | SpecialPriceHelper.cs:230-233 | a percentage in (0, 100] gives a price between zero and the base price |
| PriceCalculators.DiscountPrecedence | SpecialPriceHelper.cs:228-237 | a positive percentage wins over the amount and the offer price |
| PriceCalculators.QuantityPriceIsPerUnitDiscount | TierPriceHelper.cs:217-231 | with a positive lowest quantity the tier price is the special price of the per-unit amount |
| PromotionEngine.OwnStep | SpecialPriceHelper.cs:144-166 | one more product of the category's loop appends its match, if it is eligible |
| PromotionEngine.RuleStep | SpecialPriceHelper.cs:94 | one more line of an offer appends its rows, or its failure becomes the offer's |
| PromotionEngine.OfferStep | SpecialPriceHelper.cs:92 | one more offer appends its rows, or its failure becomes the pass's |
| PromotionEngine.ChildStep | SpecialPriceHelper.cs:215-221 | one more child appends its subtree's rows (none when skipped), or its failure stops the walk |
| PromotionEngine.OwnRows | SpecialPriceHelper.cs:189-213 | the loop over a category's own products yields the rows of its eligible products |
| PromotionEngine.CategoryRows | SpecialPriceHelper.cs:184-224 | `GetSubCategory*` yields the rows of the whole walk from the category, in pre-order |
| PromotionEngine.ChildrenRows | SpecialPriceHelper.cs:215-221 | the loop over the children yields the rows of every non-excluded child's walk, in list order |
| PromotionEngine.RuleRows | SpecialPriceHelper.cs:96-176 | the inner loop body yields the rows of one line's matches |
| PromotionEngine.OfferRows | SpecialPriceHelper.cs:94-178 | the inner loop yields the rows of one offer's lines in order, or the first failure |
| PromotionEngine.OffersRows | SpecialPriceHelper.cs:92-179 | the outer loop yields the rows of every offer in group order, or the first failure |
| PromotionEngine.ProductsPrices | SpecialPriceHelper.cs:87-182 | `GetProducts*Prices` yields exactly the rows of the pass's matches |
| PromotionEngine.Outcome | SpecialPriceHelper.cs:28-84 | rows are sent exactly when there are discount lines and rows, and a pass fails only with lines and a failing row |
| PromotionEngine.TransmitSpecialPrices | SpecialPriceHelper.cs:21-85 | the special pass hands over its rows unless there are no lines or no rows, and never fails |
| PromotionEngine.TransmitTierPrices | TierPriceHelper.cs:21-85 | the tier pass hands over its rows unless there are no lines or no rows, or fails on a division by zero |
| DealMerge.MergeGroup | DealPriceHelper.cs:51-61 | the merged row of a group: the first row's offer id, deal price, name, description, website and status, the SKUs joined by commas, the summed base prices less the first deal price as discount, and no base price |
| DealMerge.GroupsAreDeals | DealPriceHelper.cs:47 | the groups by offer id are non-empty lists of deal rows |
| DealMerge.CombineDeals | DealPriceHelper.cs:45-62 | the merge loop yields exactly one merged row per offer group, in order |
| DealMerge.CombinedOfferIds | DealPriceHelper.cs:47-62 | the merged rows carry the distinct offer ids, one each, in key order |
| DealMerge.CombinedDistinctInOrder | DealPriceHelper.cs:47-62 | no two merged rows share an offer id; they come in order of each offer's first row |
| DealMerge.CombinedCoversOffers | DealPriceHelper.cs:47-62 | every input offer id has a merged row, and every merged row's id comes from the input |
| DealMerge.CombinedFields | DealPriceHelper.cs:51-61 | a merged row: SKUs joined by commas in order, the summed base prices less the first deal price, the first row's other fields |
| DealMerge.SingleRowOffer | DealPriceHelper.cs:54-55 | an offer with one row keeps its SKU, with base price less deal price as discount |
| DealMerge.CombinedNonEmpty | DealPriceHelper.cs:66-69 | merging a non-empty list gives a non-empty list, so the second emptiness test never stops a pass |
| DealMerge.DealPassRows | DealPriceHelper.cs:113-205 | a deal pass never fails and makes one deal row per match |
| DealMerge.TransmitDealPrices | DealPriceHelper.cs:21-111 | the deal pass hands over the merged rows unless there are no lines or no rows; what it sends is non-empty |
| PriceJob.PairGroupNonEmpty | FunctionHelper.cs:125 | every (SKU, price) group is non-empty |
| PriceJob.DedupedKeys | FunctionHelper.cs:125-131 | the deduplicated rows carry the (SKU, price) keys, one each, in key order |
| PriceJob.DedupedPairsDistinct | FunctionHelper.cs:125-131 | no two deduplicated rows share a (SKU, price) pair, and there are no more of them than input rows |
| PriceJob.DedupedCoversInput | FunctionHelper.cs:125-131 | every (SKU, price) pair of the input has a row |
| PriceJob.DedupedFromInput | FunctionHelper.cs:125-131 | every deduplicated row has the pair of some input row |
| PriceJob.DedupedPricesFirstRow | FunctionHelper.cs:125-131 | each deduplicated row takes its store view and UOM from the first input row with its pair |
| PriceJob.BaseTransmissionSent | FunctionHelper.cs:111-137 | the base feed is sent exactly when there are priced products, each row with the configured store view |
| PriceJob.BaseFeedPairs | FunctionHelper.cs:115-131 | the sent base feed holds exactly the (SKU, base price) pairs of the priced products, each pair once |
| PriceJob.LowerIdempotent | FunctionHelper.cs:81 | lower-casing twice is lower-casing once |
| PriceJob.StepsIgnoreCase | FunctionHelper.cs:81-102 | the dispatch ignores the case of the price type |
| PriceJob.StepsExactly | FunctionHelper.cs:77-108 | nothing runs without priced products; the base feed runs exactly for `base`, a promotion pass exactly for its name |
| PriceJob.StepsRunOnePass | FunctionHelper.cs:81-106 | at most one transmission runs: the base feed alone, or the categories then one pass |
| PriceJob.Process | FunctionHelper.cs:59-109 | the job's output is the base feed for `base`, the pass's outcome for a pass name, nothing for another type or no priced products |
| CategoryHierarchy.LookupExactly | ProductController.cs:422 | the lookup returns the category at the first position carrying the id, none only when no category has it |
| CategoryHierarchy.LookupFound | ProductController.cs:422 | what the lookup finds is an element of the list |
| CategoryHierarchy.AncestorName | ProductController.cs:426 | an ancestor named as the retail root is written as `Default Category`, other names are kept, so no ancestor name is the retail root |
| CategoryHierarchy.HierarchyFailureStays | ProductController.cs:409-439 | once one category's walk fails, the dictionary fails with that error |
| CategoryHierarchy.WalkUp | ProductController.cs:411-431 | the `while` loop collects the category's name and then its ancestors' names, nearest first, or fails at a missing parent |
| CategoryHierarchy.BuildCategoryHierarchy | ProductController.cs:404-442 | the build loop yields the dictionary of every category's path |
| CategoryHierarchy.HierarchyFailsExactly | ProductController.cs:420-423 | the dictionary fails exactly when some category's walk fails |
| CategoryHierarchy.HierarchyKeys | ProductController.cs:436 | the dictionary's keys are exactly the category ids |
| CategoryHierarchy.HierarchyEntries | ProductController.cs:436 | each id's entry is the path of the last category carrying it |
| CategoryHierarchy.UnknownCategoryText | ProductController.cs:444-454 | an id no category carries reads as the empty path |
| CategoryHierarchy.AncestorsFailOnlyOnMissingParent | ProductController.cs:420-430 | the walk fails only at a positive parent id that no category carries |
| CategoryHierarchy.MissingParentFailsPath | ProductController.cs:422-423 | a category whose positive parent id is missing has no path: the walk fails at that id |
| CategoryHierarchy.FailedPathFailsHierarchy | ProductController.cs:409-439 | one failing path makes the whole dictionary fail |
| CategoryHierarchy.AncestorsRenameRetailRoot | ProductController.cs:426 | no ancestor name is the retail root |
| CategoryHierarchy.RootPath | ProductController.cs:411-436 | a root's path is its own translated name, never renamed, or empty without one |
| CategoryHierarchy.ChildPath | ProductController.cs:418-436 | a child's path is its parent's path, `/`, and its own name |
| CategoryHierarchy.ChildOfRetailRootPath | ProductController.cs:426 | below the retail root a child's path starts at `Default Category` |
| HierarchyProperties.MissingParentFailsHierarchy | ProductController.cs:420-423 | one category with a missing positive parent id makes the whole dictionary fail |
| HierarchyProperties.FoundWithMissingParentFailsHierarchy | ProductController.cs:420-423 | the category found for an id, with a missing positive parent id, makes the dictionary fail |
| HierarchyProperties.FailedCategoryFailsHierarchy | ProductController.cs:404-442 | one category whose walk fails makes the dictionary fail |
| HierarchyProperties.CategoryTextOfBuiltHierarchy | ProductController.cs:404-454 | reading the built dictionary at an id gives the root-first path of the last category carrying it (an id no category carries reads as the empty string: `CategoryHierarchy.UnknownCategoryText`) |
| ProductMapping.FirstInLanguageExactly | ProductController.cs:354 | the property set found is at the first position whose language matches ignoring case, none only when there is none |
| ProductMapping.FirstAnsweringExactly | ProductController.cs:361 | the property found is at the first position answering to the key, none only when none answers |
| ProductMapping.FallbackExactly | ProductController.cs:347-369 | the `en-us` fallback is taken exactly when the product has properties in the language but no answering property with a value |
| ProductMapping.AbsentLanguageHasNoFallback | ProductController.cs:354-359 | a product with no properties in the language gets the empty string, even when its `en-us` set has the key |
| ProductMapping.TranslatedValueWins | ProductController.cs:347-368 | an answering property in the language gives its value whatever the `en-us` set says |
| ProductMapping.ConvertVariantsAsErpProducts | ProductController.cs:285-345 | the loop yields the products of every master's variants, in order |
| ProductMapping.NullVariantsContributeNothing | ProductController.cs:291-296 | a master with null variants adds nothing |
| ProductMapping.VariantProductsCount | ProductController.cs:298-341 | one product per variant |
| ProductMapping.VariantProductsSound | ProductController.cs:300-338 | each product is the non-master product of a variant of a master, with the variant's id and the master's number |
| ProductMapping.VariantProductsComplete | ProductController.cs:289-342 | every variant of every master has its product |
| ProductMapping.Localized | ProductController.cs:151-161 | every search result is localized, in order: each is in the default language, keeps every field but its language code, name and description, and has its name or description replaced only by a non-empty translation |
| ProductMapping.LocalizeProducts | ProductController.cs:151-161 | the first loop yields the localized products |
| ProductMapping.Masters | ProductController.cs:165 | exactly the master products, each as often as in the input |
| ProductMapping.MastersKeepOrder | ProductController.cs:165 | the masters keep input order: those of every prefix of the input are a prefix of the masters |
| ProductMapping.TaxonomyOf | ProductController.cs:228-255 | the line's name, its parent's name and its grandparent's name, each empty when not found, and no family name for a line without a positive parent |
| ProductMapping.TaxonomyAsWrittenAgrees | ProductController.cs:238-254 | where the lookup as written succeeds it equals the corrected one; it fails exactly at a positive missing parent id |
| ProductMapping.TaxonomyMissingParentCounterexample | ProductController.cs:246 | a line whose parent is missing: as written it fails, corrected it gives the line's name alone |
| ProductMapping.AttributeItems | ProductController.cs:257-281 | 24 items, ending with the taxonomy family, category, line and `eligible_for_promo=No` |
| ProductMapping.AttributeTextTail | ProductController.cs:277-281 | the text ends with the taxonomy items and `eligible_for_promo=No` after the first twenty items |
| ProductMapping.MapEntities | ProductController.cs:169-219 | the second loop yields one entity per product, in order |
| ProductMapping.MapToProductEntities | ProductController.cs:145-222 | one entity for each localized search result, then one for each variant of a master |
| ProductMapping.AllProductsShape | ProductController.cs:165-167 | the mapped products are the search results, keeping id, number and master flag, then non-master variant products |
| ProductMapping.EntitiesShape | ProductController.cs:200-216 | entities are `configurable` exactly for masters, `simple` for variants, all in the given category |
| ProductProperties.TaxonomyFailureMaskedByHierarchy | ProductController.cs:34-36 | the categories that make the taxonomy lookup fail also make `BuildCategoryHierachy` fail first |

## Left out

- Remote calls, storage and messaging are not modelled. This covers the D365 fetches, the blob and Cosmos writes, the service-bus messages, telemetry, and the try/catch around the upload.
- `Parallel.ForEach` over batches and items is not modelled, and neither is the order in which a `ConcurrentBag` returns items. The model joins one batch, sequentially.
- `GetBasePricesFromD365` is modelled one call at a time by `BasePrices.RetryIds`. The recursive call is not modelled, because it depends on what D365 returns on each call.
- `Batch` and `DistinctBy` are library calls; the model takes their results as inputs.
- The `decimal` type's 28-digit precision and overflow are not modelled; prices are exact reals.
- Date and number formatting (`ToShortDateString`, `ToString`) is culture-dependent and is not modelled. Dates are opaque strings, and tier quantities are numbers.
- Environment and settings reads (`GetPriceRequestParams`, file names, batch size) are not modelled; their values are parameters.
- JSON round-trip copies (`JsonConvert` of products, properties and entities) are not modelled; the copy is taken to be the value itself.
- `ErpProduct` and `ProductEntity` are modelled only in the fields the mapping reads or sets; copied fields with no rule attached are left out.
- The `categoryText` computed in `MapToProductEntities` is not used by the entity, so it is not modelled; `CategoryHierarchy.CategoryText` models the read.
- `GetProductsAsync`, `SearchProductsFromD365` and `GetProductIdsAsync` are remote search and retry flows and are not modelled. The model starts from their results.
- ScopeExpansion.RankedBy: every pass requires a ranking in which each listed category ranks below its parent. This rules out every parent cycle among the listed categories. The source recurses without end, until the stack overflows, only on a cycle that a category line's walk reaches and that no Exclude line cuts. The model says nothing about inputs whose cycles are unreachable or cut by an exclusion (for example a self-parented category named by an Exclude line), although the source finishes on them.
- CategoryHierarchy.WalkRanked: the dictionary requires a ranking along the chain of first matches, which rules out every cycle of first-match parents. The source walks every category, so on such a cycle its `while` loop never ends, and `tempList` grows without bound when the names have translations. The model also says nothing about such an input when an earlier category's missing parent throws before the cycle is reached.
- Only ASCII letters are lower-cased by `Text.Lower`, where .NET lower-cases all of Unicode.
- Null strings and null lists are not modelled: every string field is a non-null `string` and every list a `seq`. Where the source dereferences such a value without a null test, the model takes it to be non-null and does not model the `NullReferenceException`. This covers `discount.UOM.ToLower()` and `filter.UOM.ToLower()` (SpecialPriceHelper.cs:107,111, TierPriceHelper.cs:102,106, DealPriceHelper.cs:128,132), `requestParams.PriceType.ToLower()` (FunctionHelper.cs:81), `TranslationLanguage` in the property lookups (ProductController.cs:354,392), `NameTranslations.FirstOrDefault()` (ProductController.cs:412,424) and `DefaultLanguage.Split('-')` (ProductController.cs:153). The nulls the source does test for are modelled as `Option`.
- ProductMapping.MapToProductEntities: each entity takes its taxonomy from the corrected `TaxonomyOf`. On a line category whose positive parent id no category carries, the source throws at ProductController.cs:246 instead (see "## Findings"). `ProductProperties.TaxonomyFailureMaskedByHierarchy` shows that `GetProductsAsync` never reaches the mapping with such categories, because `BuildCategoryHierachy` fails on them first.

## Findings

| source | as written | input that shows it | evidently intended | confidence | as-written member | corrected member |
|---|---|---|---|---|---|---|
| ProductController.cs:246 | `daxCategory.ParentCategory` is read after `daxCategory` was tested for null, but outside that test | a product's line category has a positive parent id that no category carries, e.g. the single category `1` with parent `2` | test the grandparent only when the parent was found, leaving the family and category names empty | not executed; the same categories make `BuildCategoryHierachy` fail earlier in `GetProductsAsync` (`ProductProperties.TaxonomyFailureMaskedByHierarchy`) | ProductMapping.TaxonomyAsWritten, ProductMapping.TaxonomyMissingParentCounterexample | ProductMapping.TaxonomyOf |
