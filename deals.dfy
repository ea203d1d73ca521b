/** The deal-only step of `TransmitDealPricesAsync`: the pre-merge rows of a deal pass
    are grouped by offer and each group becomes one row. */
module DealMerge {
  import opened Wrappers
  import opened Text
  import Grouping
  import opened ScopeExpansion
  import opened PriceCalculators
  import opened PromotionEngine

  /** Every row is a deal row (a `List<ProductDealPrice>`). */
  predicate AllDeals(rows: seq<PriceRow>) {
    forall row | row in rows :: row.DealRow?
  }

  /** The key of `dealPrices.GroupBy(dp => dp.OfferId)`. */
  function DealOfferId(row: PriceRow): string {
    if row.DealRow? then row.OfferId else ""
  }

  /** `offerGroup.Select(dp => dp.Skus)`. */
  function SkusOf(group: seq<PriceRow>): (skus: seq<string>)
    requires AllDeals(group)
    ensures |skus| == |group| && forall i :: 0 <= i < |group| ==> skus[i] == group[i].Skus
  {
    seq(|group|, i requires 0 <= i < |group| => group[i].Skus)
  }

  /** `offerGroup.Sum(dp => dp.BasePrice)`. */
  function SumBasePrices(group: seq<PriceRow>): real
    requires AllDeals(group)
    decreases |group|
  {
    if group == [] then 0.0
    else SumBasePrices(group[..|group| - 1]) + group[|group| - 1].BasePrice
  }

  /** The row the merge makes of one offer's group: the joined SKUs, the summed base
      prices less the deal price, and the rest from the group's first row. `BasePrice`
      is not set and keeps its default. */
  function MergeGroup(group: seq<PriceRow>): (row: PriceRow)
    requires group != [] && AllDeals(group)
    ensures row.DealRow? && row.OfferId == group[0].OfferId
    ensures row.Skus == Join(",", SkusOf(group)) && row.BasePrice == 0.0
    ensures row.Discount == SumBasePrices(group) - group[0].DealPrice
    ensures row.DealPrice == group[0].DealPrice && row.Name == group[0].Name && row.Description == group[0].Description
    ensures row.Website == group[0].Website && row.Status == group[0].Status
  {
    var first := group[0];
    DealRow(first.OfferId, Join(",", SkusOf(group)), 0.0, SumBasePrices(group) - first.DealPrice,
            first.DealPrice, first.Name, first.Description, first.Website, first.Status)
  }

  /** The groups of `dealPrices.GroupBy(dp => dp.OfferId)` are non-empty deal rows. */
  lemma GroupsAreDeals(rows: seq<PriceRow>, i: nat)
    requires AllDeals(rows) && i < |Grouping.GroupBy(rows, DealOfferId)|
    ensures Grouping.GroupBy(rows, DealOfferId)[i] != [] && AllDeals(Grouping.GroupBy(rows, DealOfferId)[i])
  {
    var ks := Grouping.Keys(rows, DealOfferId);
    assert ks[i] in ks;
    Grouping.MembersExactly(rows, DealOfferId, ks[i]);
  }

  /** The merged list: one row per group, in group order. */
  function CombinedDealPrices(rows: seq<PriceRow>): seq<PriceRow>
    requires AllDeals(rows)
  {
    var groups := Grouping.GroupBy(rows, DealOfferId);
    seq(|groups|, i requires 0 <= i < |groups| =>
      GroupsAreDeals(rows, i);
      MergeGroup(groups[i]))
  }

  /** The merge loop of `TransmitDealPricesAsync`. */
  method CombineDeals(dealPrices: seq<PriceRow>) returns (combined: seq<PriceRow>)
    requires AllDeals(dealPrices)
    ensures combined == CombinedDealPrices(dealPrices)
  {
    var offerGroups := Grouping.GroupBy(dealPrices, DealOfferId);
    combined := [];
    for g := 0 to |offerGroups|
      invariant |combined| == g
      invariant forall i :: 0 <= i < g ==> combined[i] == CombinedDealPrices(dealPrices)[i]
    {
      GroupsAreDeals(dealPrices, g);
      combined := combined + [MergeGroup(offerGroups[g])];
    }
  }

  /** The merged rows carry the distinct offer ids, one each, in key order. */
  lemma CombinedOfferIds(rows: seq<PriceRow>)
    requires AllDeals(rows)
    ensures var c, ks := CombinedDealPrices(rows), Grouping.Keys(rows, DealOfferId);
      |c| == |ks| && forall i :: 0 <= i < |c| ==> c[i].OfferId == ks[i]
  {
    var c, ks := CombinedDealPrices(rows), Grouping.Keys(rows, DealOfferId);
    forall i | 0 <= i < |c| ensures c[i].OfferId == ks[i] {
      GroupsAreDeals(rows, i);
      Grouping.MembersStartWithFirst(rows, DealOfferId, ks[i]);
      assert rows[Grouping.FirstIndex(rows, DealOfferId, ks[i])] in rows;
    }
  }

  /** No two merged rows share an offer id, and they come in order of each offer's
      first row. */
  lemma CombinedDistinctInOrder(rows: seq<PriceRow>)
    requires AllDeals(rows)
    ensures var c := CombinedDealPrices(rows);
      forall i, j :: 0 <= i < j < |c| ==>
        c[i].OfferId != c[j].OfferId
        && c[i].OfferId in Grouping.Keys(rows, DealOfferId) && c[j].OfferId in Grouping.Keys(rows, DealOfferId)
        && Grouping.FirstIndex(rows, DealOfferId, c[i].OfferId) < Grouping.FirstIndex(rows, DealOfferId, c[j].OfferId)
  {
    CombinedOfferIds(rows);
    Grouping.KeysExactly(rows, DealOfferId);
    Grouping.KeysInOrderOfFirstAppearance(rows, DealOfferId);
  }

  /** Every offer id of the input has a merged row, and every merged row's offer id
      comes from the input. */
  lemma CombinedCoversOffers(rows: seq<PriceRow>)
    requires AllDeals(rows)
    ensures var c := CombinedDealPrices(rows);
      (forall row | row in rows :: exists i :: 0 <= i < |c| && c[i].OfferId == row.OfferId)
      && (forall i :: 0 <= i < |c| ==> exists row :: row in rows && row.OfferId == c[i].OfferId)
  {
    var c, ks := CombinedDealPrices(rows), Grouping.Keys(rows, DealOfferId);
    CombinedOfferIds(rows);
    Grouping.KeysExactly(rows, DealOfferId);
    forall row | row in rows ensures exists i :: 0 <= i < |c| && c[i].OfferId == row.OfferId {
      assert DealOfferId(row) in ks;
      var i :| 0 <= i < |ks| && ks[i] == DealOfferId(row);
      assert c[i].OfferId == row.OfferId;
    }
    forall i | 0 <= i < |c| ensures exists row :: row in rows && row.OfferId == c[i].OfferId {
      assert ks[i] in ks;
      var row :| row in rows && DealOfferId(row) == ks[i];
    }
  }

  /** Each merged row: the offer's SKUs joined by commas in encounter order, the sum of
      its base prices less its first row's deal price, and the first row's offer id,
      deal price, name, description, website and status. */
  lemma CombinedFields(rows: seq<PriceRow>, i: nat)
    requires AllDeals(rows) && i < |Grouping.Keys(rows, DealOfferId)|
    ensures var k := Grouping.Keys(rows, DealOfferId)[i];
      var c := CombinedDealPrices(rows)[i];
      var group := Grouping.Members(rows, DealOfferId, k);
      var first := rows[Grouping.FirstIndex(rows, DealOfferId, k)];
      c.DealRow? && first.DealRow? && group != [] && AllDeals(group)
      && c.Skus == Join(",", SkusOf(group))
      && c.Discount == SumBasePrices(group) - first.DealPrice
      && c.OfferId == first.OfferId && c.DealPrice == first.DealPrice && c.Name == first.Name
      && c.Description == first.Description && c.Website == first.Website && c.Status == first.Status
  {
    var ks := Grouping.Keys(rows, DealOfferId);
    GroupsAreDeals(rows, i);
    Grouping.MembersStartWithFirst(rows, DealOfferId, ks[i]);
    assert rows[Grouping.FirstIndex(rows, DealOfferId, ks[i])] in rows;
  }

  /** An offer with a single row keeps that row's SKU, and its discount is that row's
      base price less its deal price. */
  lemma SingleRowOffer(rows: seq<PriceRow>, i: nat)
    requires AllDeals(rows) && i < |Grouping.Keys(rows, DealOfferId)|
    requires |Grouping.Members(rows, DealOfferId, Grouping.Keys(rows, DealOfferId)[i])| == 1
    ensures var c := CombinedDealPrices(rows)[i];
      var only := Grouping.Members(rows, DealOfferId, Grouping.Keys(rows, DealOfferId)[i])[0];
      only.DealRow? && c.Skus == only.Skus && c.Discount == only.BasePrice - only.DealPrice
  {
    var ks := Grouping.Keys(rows, DealOfferId);
    var group := Grouping.Members(rows, DealOfferId, ks[i]);
    CombinedFields(rows, i);
    Grouping.MembersStartWithFirst(rows, DealOfferId, ks[i]);
    assert group[..0] == [];
  }

  /** The merge never empties a non-empty list, so the source's second emptiness test
      never stops a pass that has rows. */
  lemma CombinedNonEmpty(rows: seq<PriceRow>)
    requires AllDeals(rows) && rows != []
    ensures CombinedDealPrices(rows) != []
  {
    assert rows[0] in rows;
    Grouping.KeysExactly(rows, DealOfferId);
    assert DealOfferId(rows[0]) in Grouping.Keys(rows, DealOfferId);
  }

  /** A deal pass never fails, and its rows are the deal rows of its matches. */
  lemma DealPassRows(params: PriceParams, ms: seq<Match>)
    ensures Rows(RowMaker(Deal, params), ms).Success?
    ensures AllDeals(Rows(RowMaker(Deal, params), ms).value)
    ensures |Rows(RowMaker(Deal, params), ms).value| == |ms|
  {
    var rowOf := RowMaker(Deal, params);
    OnlyTierRowsFail(Deal, params, ms);
    RowsMeaning(rowOf, ms);
    var rows := Rows(rowOf, ms).value;
    forall row | row in rows ensures row.DealRow? {
      var i :| 0 <= i < |rows| && rows[i] == row;
      MakeRowShape(Deal, params, ms[i]);
    }
  }

  /** `TransmitDealPricesAsync` up to the upload: nothing without rules or without
      rows, otherwise the merged rows. */
  method TransmitDealPrices(params: PriceParams, rules: seq<DiscountRule>, products: seq<PricedProduct>,
                            cats: seq<CategoryBlob>, ghost rank: int -> nat)
    returns (t: Transmission<PriceRow>)
    requires RankedBy(cats, rank)
    ensures var rows := Rows(RowMaker(Deal, params), EngineMatches(Deal, rules, products, cats, rank));
      rows.Success? && AllDeals(rows.value)
      && t == (if rules == [] || rows.value == [] then NotSent else Sent(CombinedDealPrices(rows.value)))
    ensures t.Sent? ==> t.Payload != []
  {
    DealPassRows(params, EngineMatches(Deal, rules, products, cats, rank));
    if rules == [] {
      return NotSent;
    }
    var dealPrices := ProductsPrices(Deal, RowMaker(Deal, params), rules, products, cats, rank);
    var rows := dealPrices.value;
    if |rows| > 0 {
      var combined := CombineDeals(rows);
      CombinedNonEmpty(rows);
      return Sent(combined);
    }
    return NotSent;
  }
}
