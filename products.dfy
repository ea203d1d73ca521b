/** The product mapping of `ProductController`: translated attribute lookups, the
    expansion of master products into their variants, the taxonomy names and the
    `additional_attributes` text of each product entity. */
module ProductMapping {
  import opened Wrappers
  import opened Text
  import opened CategoryHierarchy

  // ------------------------------------------------------------ attributes

  /** One translated property of a product. A null `ValueString` is `None`. */
  datatype TranslatedProperty = TranslatedProperty(KeyName: string, FriendlyName: string, AttributeValueId: int, ValueString: Option<string>)

  /** The properties of a product in one language (`ErpProductPropertyTranslation`). */
  datatype PropertyTranslation = PropertyTranslation(TranslationLanguage: string, TranslatedProperties: Option<seq<TranslatedProperty>>)

  /** The first property set whose language equals `language` ignoring case. */
  function FirstInLanguage(props: seq<PropertyTranslation>, language: string): Option<PropertyTranslation>
  {
    if props == [] then None
    else if EqualsIgnoreCase(props[0].TranslationLanguage, language) then Some(props[0])
    else FirstInLanguage(props[1..], language)
  }

  /** `FirstInLanguage` finds a property set in the language, and nothing only when
      there is none. */
  lemma {:induction false} FirstInLanguageExactly(props: seq<PropertyTranslation>, language: string)
    ensures FirstInLanguage(props, language).None? <==>
      forall p | p in props :: !EqualsIgnoreCase(p.TranslationLanguage, language)
    ensures FirstInLanguage(props, language).Some? ==>
      FirstInLanguage(props, language).value in props
      && EqualsIgnoreCase(FirstInLanguage(props, language).value.TranslationLanguage, language)
    ensures FirstInLanguage(props, language).Some? ==>
      exists i :: 0 <= i < |props| && props[i] == FirstInLanguage(props, language).value
                  && forall j :: 0 <= j < i ==> !EqualsIgnoreCase(props[j].TranslationLanguage, language)
  {
    if props != [] && !EqualsIgnoreCase(props[0].TranslationLanguage, language) {
      FirstInLanguageExactly(props[1..], language);
      if FirstInLanguage(props, language).Some? {
        var i :| 0 <= i < |props[1..]| && props[1..][i] == FirstInLanguage(props, language).value
                 && forall j :: 0 <= j < i ==> !EqualsIgnoreCase(props[1..][j].TranslationLanguage, language);
        assert props[i + 1] == props[1..][i];
        assert forall j :: 1 <= j < i + 1 ==> props[j] == props[1..][j - 1];
      }
      assert forall p | p in props :: p == props[0] || p in props[1..];
    }
  }

  /** Whether a translated property answers to `key`: by key name, and for product
      attributes also by friendly name or by the text of its value id. */
  predicate AnswersTo(t: TranslatedProperty, key: string, anyName: bool) {
    t.KeyName == key || (anyName && (t.FriendlyName == key || IntToString(t.AttributeValueId) == key))
  }

  /** The first translated property that answers to `key`. */
  function FirstAnswering(tps: seq<TranslatedProperty>, key: string, anyName: bool): Option<TranslatedProperty>
  {
    if tps == [] then None
    else if AnswersTo(tps[0], key, anyName) then Some(tps[0])
    else FirstAnswering(tps[1..], key, anyName)
  }

  lemma {:induction false} FirstAnsweringExactly(tps: seq<TranslatedProperty>, key: string, anyName: bool)
    ensures FirstAnswering(tps, key, anyName).None? <==> forall t | t in tps :: !AnswersTo(t, key, anyName)
    ensures FirstAnswering(tps, key, anyName).Some? ==>
      FirstAnswering(tps, key, anyName).value in tps && AnswersTo(FirstAnswering(tps, key, anyName).value, key, anyName)
    ensures FirstAnswering(tps, key, anyName).Some? ==>
      exists i :: 0 <= i < |tps| && tps[i] == FirstAnswering(tps, key, anyName).value
                  && forall j :: 0 <= j < i ==> !AnswersTo(tps[j], key, anyName)
  {
    if tps != [] && !AnswersTo(tps[0], key, anyName) {
      FirstAnsweringExactly(tps[1..], key, anyName);
      if FirstAnswering(tps, key, anyName).Some? {
        var i :| 0 <= i < |tps[1..]| && tps[1..][i] == FirstAnswering(tps, key, anyName).value
                 && forall j :: 0 <= j < i ==> !AnswersTo(tps[1..][j], key, anyName);
        assert tps[i + 1] == tps[1..][i];
        assert forall j :: 1 <= j < i + 1 ==> tps[j] == tps[1..][j - 1];
      }
      assert forall t | t in tps :: t == tps[0] || t in tps[1..];
    }
  }

  /** `GetCustomTranslatedAttributeValue` (`anyName`) and `GetVariantValue` (key name
      only): the empty string when the product has no properties in the language,
      null (`None`) when the language has no property answering to the key or its
      value is null, else the property's value. */
  function TranslatedValue(props: Option<seq<PropertyTranslation>>, language: string, key: string, anyName: bool): Option<string>
  {
    if props.None? then Some("")
    else
      match FirstInLanguage(props.value, language)
      case None => Some("")
      case Some(inLanguage) =>
        if inLanguage.TranslatedProperties.None? then None
        else
          match FirstAnswering(inLanguage.TranslatedProperties.value, key, anyName)
          case None => None
          case Some(t) => t.ValueString
  }

  /** `GetCustomNumericAttributeValue`: the value of the key in the first `en-us`
      property set, or the empty string. */
  function NumericValue(props: Option<seq<PropertyTranslation>>, key: string): string
  {
    if props.None? then ""
    else
      match FirstInLanguage(props.value, "en-us")
      case None => ""
      case Some(english) =>
        if english.TranslatedProperties.None? then ""
        else
          match FirstAnswering(english.TranslatedProperties.value, key, false)
          case None => ""
          case Some(t) => t.ValueString.GetOr("")
  }

  /** `GetCustomAttributeValue`: the translated value, or the `en-us` value when the
      translated lookup gives null. */
  function CustomAttributeValue(props: Option<seq<PropertyTranslation>>, language: string, key: string): string
  {
    match TranslatedValue(props, language, key, true)
    case Some(value) => value
    case None => NumericValue(props, key)
  }

  /** The `en-us` fallback is taken exactly when the product has properties in the
      language but none of them answers to the key with a value. */
  lemma FallbackExactly(props: Option<seq<PropertyTranslation>>, language: string, key: string)
    ensures TranslatedValue(props, language, key, true).None? <==>
      props.Some? && FirstInLanguage(props.value, language).Some?
      && var tps := FirstInLanguage(props.value, language).value.TranslatedProperties;
         (tps.None? || FirstAnswering(tps.value, key, true).None? || FirstAnswering(tps.value, key, true).value.ValueString.None?)
    ensures TranslatedValue(props, language, key, true).None? ==> CustomAttributeValue(props, language, key) == NumericValue(props, key)
    ensures TranslatedValue(props, language, key, true).Some? ==>
      CustomAttributeValue(props, language, key) == TranslatedValue(props, language, key, true).value
  {
  }

  /** A product with no property set in the language gets the empty string, even when
      its `en-us` set has the key. */
  lemma AbsentLanguageHasNoFallback(props: seq<PropertyTranslation>, language: string, key: string)
    requires forall p | p in props :: !EqualsIgnoreCase(p.TranslationLanguage, language)
    ensures CustomAttributeValue(Some(props), language, key) == ""
  {
    FirstInLanguageExactly(props, language);
  }

  /** A property set in the language whose properties answer to the key with a value
      gives that value, whatever the `en-us` set says. */
  lemma TranslatedValueWins(props: seq<PropertyTranslation>, language: string, key: string,
                            tps: seq<TranslatedProperty>, value: string)
    requires FirstInLanguage(props, language).Some? && FirstInLanguage(props, language).value.TranslatedProperties == Some(tps)
    requires FirstAnswering(tps, key, true).Some? && FirstAnswering(tps, key, true).value.ValueString == Some(value)
    ensures CustomAttributeValue(Some(props), language, key) == value
  {
  }

  // ------------------------------------------------------------ products

  /** The parts of a variant (`ErpProductVariant`) the conversion copies and reads. */
  datatype Variant = Variant(DistinctProductVariantId: int, ItemId: string, ProductNumber: string,
                             PropertiesAsList: Option<seq<PropertyTranslation>>)

  /** The parts of an `ErpProduct` the mapping reads and writes. `Variants` is
      `CompositionInformation?.VariantInformation?.Variants`, `DefaultUnitOfMeasure`
      is `Rules?.DefaultUnitOfMeasure`. */
  datatype ErpProduct = ErpProduct(
    RecordId: int, ProductNumber: string, ProductName: Option<string>, Description: Option<string>,
    IsMasterProduct: bool, MasterProductNumber: Option<string>, ItemId: string,
    Language: string, LanguageCode: string, ProductProperties: Option<seq<PropertyTranslation>>,
    Variants: Option<seq<Variant>>, DefaultUnitOfMeasure: Option<string>)

  /** The product made of one variant of a master. */
  function ConvertVariant(master: ErpProduct, v: Variant, defaultLanguage: string): ErpProduct {
    ErpProduct(
      v.DistinctProductVariantId, v.ProductNumber,
      TranslatedValue(v.PropertiesAsList, "en-CA", "ProductName", false),
      TranslatedValue(v.PropertiesAsList, "en-CA", "Description", false),
      false, Some(master.ProductNumber), v.ItemId,
      defaultLanguage, PrefixBefore(defaultLanguage, '-'), v.PropertiesAsList,
      None, master.DefaultUnitOfMeasure)
  }

  /** The products of one master's variants, in order; none when its variants are null. */
  function MasterVariants(master: ErpProduct, defaultLanguage: string): seq<ErpProduct> {
    match master.Variants
    case None => []
    case Some(vs) => seq(|vs|, j requires 0 <= j < |vs| => ConvertVariant(master, vs[j], defaultLanguage))
  }

  /** The list `ConvertVariantsAsErpProducts` builds: each master's variants in turn. */
  function VariantProducts(masters: seq<ErpProduct>, defaultLanguage: string): seq<ErpProduct> {
    FlatMap(masters, m => MasterVariants(m, defaultLanguage))
  }

  /** `ConvertVariantsAsErpProducts`: one new product per variant of each master. */
  method ConvertVariantsAsErpProducts(erpMasterProducts: seq<ErpProduct>, defaultLanguage: string)
    returns (erpProducts: seq<ErpProduct>)
    ensures erpProducts == VariantProducts(erpMasterProducts, defaultLanguage)
  {
    erpProducts := [];
    for i := 0 to |erpMasterProducts|
      invariant erpProducts == VariantProducts(erpMasterProducts[..i], defaultLanguage)
    {
      var erpMasterProduct := erpMasterProducts[i];
      assert erpMasterProducts[..i + 1] == erpMasterProducts[..i] + [erpMasterProduct];
      FlatMapSnoc(erpMasterProducts[..i], erpMasterProduct, m => MasterVariants(m, defaultLanguage));
      var variants := erpMasterProduct.Variants;
      if variants.None? {
        assert erpProducts + [] == erpProducts;
        continue;
      }
      ghost var before := erpProducts;
      for j := 0 to |variants.value|
        invariant erpProducts == before + MasterVariants(erpMasterProduct, defaultLanguage)[..j]
      {
        var erpProduct := ConvertVariant(erpMasterProduct, variants.value[j], defaultLanguage);
        assert MasterVariants(erpMasterProduct, defaultLanguage)[..j + 1]
               == MasterVariants(erpMasterProduct, defaultLanguage)[..j] + [erpProduct];
        erpProducts := erpProducts + [erpProduct];
      }
      assert MasterVariants(erpMasterProduct, defaultLanguage)[..|variants.value|] == MasterVariants(erpMasterProduct, defaultLanguage);
    }
    assert erpMasterProducts[..|erpMasterProducts|] == erpMasterProducts;
  }

  /** A master whose variants are null contributes nothing. */
  lemma NullVariantsContributeNothing(a: seq<ErpProduct>, master: ErpProduct, b: seq<ErpProduct>, defaultLanguage: string)
    requires master.Variants.None?
    ensures VariantProducts(a + [master] + b, defaultLanguage) == VariantProducts(a + b, defaultLanguage)
  {
    var f := m => MasterVariants(m, defaultLanguage);
    FlatMapAppend(a + [master], b, f);
    FlatMapAppend(a, b, f);
    FlatMapSnoc(a, master, f);
  }

  /** The number of variants of a list of masters, counting null as none. */
  function VariantCount(masters: seq<ErpProduct>): nat
  {
    if masters == [] then 0
    else (if masters[0].Variants.Some? then |masters[0].Variants.value| else 0) + VariantCount(masters[1..])
  }

  /** There is one product per variant of a master. */
  lemma {:induction false} VariantProductsCount(masters: seq<ErpProduct>, defaultLanguage: string)
    ensures |VariantProducts(masters, defaultLanguage)| == VariantCount(masters)
  {
    if masters != [] {
      VariantProductsCount(masters[1..], defaultLanguage);
    }
  }

  /** Every product of the list is the non-master product of one variant of one master,
      carrying the variant's id as its record id and the master's number as its master
      number. */
  lemma {:induction false} VariantProductsSound(masters: seq<ErpProduct>, defaultLanguage: string)
    ensures forall p | p in VariantProducts(masters, defaultLanguage) ::
      !p.IsMasterProduct
      && exists m, v :: m in masters && m.Variants.Some? && v in m.Variants.value
                        && p.RecordId == v.DistinctProductVariantId && p.MasterProductNumber == Some(m.ProductNumber)
  {
    if masters != [] {
      var first, rest := masters[0], masters[1..];
      VariantProductsSound(rest, defaultLanguage);
      var mine := MasterVariants(first, defaultLanguage);
      assert VariantProducts(masters, defaultLanguage) == mine + VariantProducts(rest, defaultLanguage);
      forall p | p in mine
        ensures !p.IsMasterProduct
                && exists m, v :: m in masters && m.Variants.Some? && v in m.Variants.value
                                  && p.RecordId == v.DistinctProductVariantId && p.MasterProductNumber == Some(m.ProductNumber)
      {
        var j :| 0 <= j < |mine| && mine[j] == p;
        assert first.Variants.value[j] in first.Variants.value;
      }
      assert forall m | m in rest :: m in masters;
    }
  }

  /** Every variant of every master has its product in the list. */
  lemma {:induction false} VariantProductsComplete(masters: seq<ErpProduct>, defaultLanguage: string)
    ensures forall m, v | m in masters && m.Variants.Some? && v in m.Variants.value ::
      ConvertVariant(m, v, defaultLanguage) in VariantProducts(masters, defaultLanguage)
  {
    if masters != [] {
      var first, rest := masters[0], masters[1..];
      VariantProductsComplete(rest, defaultLanguage);
      var mine := MasterVariants(first, defaultLanguage);
      assert VariantProducts(masters, defaultLanguage) == mine + VariantProducts(rest, defaultLanguage);
      forall v | first.Variants.Some? && v in first.Variants.value
        ensures ConvertVariant(first, v, defaultLanguage) in mine
      {
        var j :| 0 <= j < |first.Variants.value| && first.Variants.value[j] == v;
        assert mine[j] == ConvertVariant(first, v, defaultLanguage);
      }
      assert forall m | m in masters :: m == first || m in rest;
    }
  }

  /** The name and description of a product come from its `en-CA` attributes when
      those are not empty; it takes the default language and its code. */
  function Localize(p: ErpProduct, defaultLanguage: string): ErpProduct {
    var name := CustomAttributeValue(p.ProductProperties, "en-CA", "ProductName");
    var description := CustomAttributeValue(p.ProductProperties, "en-CA", "Description");
    p.(LanguageCode := PrefixBefore(defaultLanguage, '-'), Language := defaultLanguage,
       ProductName := if name != "" then Some(name) else p.ProductName,
       Description := if description != "" then Some(description) else p.Description)
  }

  /** Every search result localized, in order. */
  function Localized(products: seq<ErpProduct>, defaultLanguage: string): (localized: seq<ErpProduct>)
    ensures |localized| == |products|
    ensures forall i :: 0 <= i < |products| ==> localized[i] == Localize(products[i], defaultLanguage)
    ensures forall i :: 0 <= i < |products| ==>
      localized[i].Language == defaultLanguage
      && localized[i] == products[i].(LanguageCode := localized[i].LanguageCode, Language := defaultLanguage,
                                      ProductName := localized[i].ProductName, Description := localized[i].Description)
    ensures forall i :: 0 <= i < |products| && localized[i].ProductName != products[i].ProductName ==>
      localized[i].ProductName.Some? && localized[i].ProductName.value != ""
    ensures forall i :: 0 <= i < |products| && localized[i].Description != products[i].Description ==>
      localized[i].Description.Some? && localized[i].Description.value != ""
  {
    seq(|products|, i requires 0 <= i < |products| => Localize(products[i], defaultLanguage))
  }

  /** The first loop of `MapToProductEntities`, updating each product in place. */
  method LocalizeProducts(products: seq<ErpProduct>, defaultLanguage: string) returns (erpProducts: seq<ErpProduct>)
    ensures erpProducts == Localized(products, defaultLanguage)
  {
    erpProducts := products;
    for i := 0 to |erpProducts|
      invariant |erpProducts| == |products|
      invariant forall k :: 0 <= k < i ==> erpProducts[k] == Localize(products[k], defaultLanguage)
      invariant forall k :: i <= k < |products| ==> erpProducts[k] == products[k]
    {
      var product := erpProducts[i];
      product := product.(LanguageCode := PrefixBefore(defaultLanguage, '-'), Language := defaultLanguage);
      var name := CustomAttributeValue(product.ProductProperties, "en-CA", "ProductName");
      var description := CustomAttributeValue(product.ProductProperties, "en-CA", "Description");
      if name != "" {
        product := product.(ProductName := Some(name));
      }
      if description != "" {
        product := product.(Description := Some(description));
      }
      erpProducts := erpProducts[i := product];
    }
  }

  /** `erpProducts.Where(p => p.IsMasterProduct)`. */
  function Masters(products: seq<ErpProduct>): (masters: seq<ErpProduct>)
    ensures forall p | p in masters :: p in products && p.IsMasterProduct
    ensures forall p | p in products && p.IsMasterProduct :: p in masters
    ensures forall x :: multiset(masters)[x] == if x.IsMasterProduct then multiset(products)[x] else 0
    decreases |products|
  {
    if products == [] then []
    else
      var init, last := products[..|products| - 1], products[|products| - 1];
      assert products == init + [last];
      Masters(init) + (if last.IsMasterProduct then [last] else [])
  }

  /** The masters keep their input order: those of every prefix of the input are a
      prefix of the masters. */
  lemma {:induction false} MastersKeepOrder(products: seq<ErpProduct>)
    ensures forall n | 0 <= n <= |products| :: Masters(products[..n]) <= Masters(products)
    decreases |products|
  {
    if products != [] {
      var init, last := products[..|products| - 1], products[|products| - 1];
      assert products == init + [last];
      MastersKeepOrder(init);
      forall n | 0 <= n <= |products|
        ensures Masters(products[..n]) <= Masters(products)
      {
        if n < |products| {
          assert products[..n] == init[..n];
        } else {
          assert products[..n] == products;
        }
      }
    }
  }

  /** The products `MapToProductEntities` maps: the localized search results, then the
      variants of their masters. */
  function AllProducts(products: seq<ErpProduct>, defaultLanguage: string): seq<ErpProduct> {
    var localized := Localized(products, defaultLanguage);
    localized + VariantProducts(Masters(localized), defaultLanguage)
  }

  // ------------------------------------------------------------ taxonomy

  /** The taxonomy names of a product's category: its family (grandparent), category
      (parent) and line (the category itself). */
  datatype Taxonomy = Taxonomy(Family: string, Category: string, Line: string)

  /** The one failure of the lookup as written. */
  datatype TaxonomyError = NullReference

  /** The taxonomy lookup of `ProductAdditionalAttributes` as written: when the line
      has a positive parent id that no category carries, the parent's own parent is
      read from null. */
  function TaxonomyAsWritten(cats: seq<Category>, categoryId: int): Result<Taxonomy, TaxonomyError> {
    match Lookup(cats, categoryId)
    case None => Success(Taxonomy("", "", ""))
    case Some(line) =>
      if line.ParentCategory.GetOr(0) <= 0 then Success(Taxonomy("", "", line.Name))
      else
        match Lookup(cats, line.ParentCategory.value)
        case None => Failure(NullReference)
        case Some(category) =>
          if category.ParentCategory.GetOr(0) <= 0 then Success(Taxonomy("", category.Name, line.Name))
          else
            match Lookup(cats, category.ParentCategory.value)
            case None => Success(Taxonomy("", category.Name, line.Name))
            case Some(family) => Success(Taxonomy(family.Name, category.Name, line.Name))
  }

  /** The name of the category with this id, if the id is positive and present. */
  function NameOf(cats: seq<Category>, id: Option<int>): string {
    if id.GetOr(0) <= 0 then ""
    else
      match Lookup(cats, id.value)
      case None => ""
      case Some(c) => c.Name
  }

  /** The taxonomy lookup with the grandparent test inside the parent's null test: each
      name is the category's, its parent's or its grandparent's, or empty. */
  function TaxonomyOf(cats: seq<Category>, categoryId: int): (t: Taxonomy)
    ensures Lookup(cats, categoryId).None? ==> t == Taxonomy("", "", "")
    ensures Lookup(cats, categoryId).Some? ==>
      var line := Lookup(cats, categoryId).value;
      t.Line == line.Name && t.Category == NameOf(cats, line.ParentCategory)
      && (t.Category == "" && Lookup(cats, line.ParentCategory.GetOr(0)).None? ==> t.Family == "")
      && (line.ParentCategory.GetOr(0) <= 0 ==> t.Family == "")
      && (line.ParentCategory.GetOr(0) > 0 && Lookup(cats, line.ParentCategory.value).Some? ==>
            t.Family == NameOf(cats, Lookup(cats, line.ParentCategory.value).value.ParentCategory))
  {
    match Lookup(cats, categoryId)
    case None => Taxonomy("", "", "")
    case Some(line) =>
      if line.ParentCategory.GetOr(0) <= 0 then Taxonomy("", "", line.Name)
      else
        match Lookup(cats, line.ParentCategory.value)
        case None => Taxonomy("", "", line.Name)
        case Some(category) => Taxonomy(NameOf(cats, category.ParentCategory), category.Name, line.Name)
  }

  /** Where the lookup as written succeeds it agrees with the corrected one, and it
      fails exactly when the line's positive parent id is not found. */
  lemma TaxonomyAsWrittenAgrees(cats: seq<Category>, categoryId: int)
    ensures TaxonomyAsWritten(cats, categoryId).Success? ==> TaxonomyAsWritten(cats, categoryId).value == TaxonomyOf(cats, categoryId)
    ensures TaxonomyAsWritten(cats, categoryId).Failure? <==>
      Lookup(cats, categoryId).Some? && Lookup(cats, categoryId).value.ParentCategory.GetOr(0) > 0
      && Lookup(cats, Lookup(cats, categoryId).value.ParentCategory.value).None?
  {
  }

  /** A line whose parent is missing from the list: the lookup as written fails, the
      corrected one gives the line's name alone. */
  lemma TaxonomyMissingParentCounterexample()
    ensures var cats := [Category(1, Some(2), "Line", None)];
      TaxonomyAsWritten(cats, 1).Failure? && TaxonomyOf(cats, 1) == Taxonomy("", "", "Line")
  {
    var cats := [Category(1, Some(2), "Line", None)];
    assert Lookup(cats, 1) == Some(cats[0]);
    assert Lookup(cats[1..], 2) == None;
  }

  // ------------------------------------------------------------ entities

  /** The parts of a `VSIRocklerCustomProductAttribute` the attribute text reads. Decimal
      and date fields hold the text the source formats them to; `ATPDate` is `None`
      for the default date. Flags are nullable integers. */
  datatype CustomAttribute = CustomAttribute(
    ItemId: string, ListId: Option<string>, ATPDate: Option<string>, Price: string, CountryOriginRegionId: string,
    Dropshipment: Option<int>, EndDisc: Option<int>, ProprietaryType: Option<int>, ExportEligible: Option<int>,
    MarkupGroupId: string, Height: string, HTSCode: string, Depth: string, ShipAlone: Option<int>,
    NetWeight: string, Width: string, HmimIndicator: Option<int>, NoBackOrder: string, Top200: Option<int>,
    Prop65Script: string, StatusCode: string, BWGWarrantableFlag: string)

  /** What every field reads as through a null attribute record (`pa?.X`). */
  const NoAttribute := CustomAttribute("", None, None, "", "", None, None, None, None, "", "", "", "", None,
                                       "", "", None, "", None, "", "", "")

  /** `productsCustomAttributes.FirstOrDefault(ca => ca.ItemId == productNumber)`. */
  function FirstAttribute(attrs: seq<CustomAttribute>, productNumber: string): Option<CustomAttribute>
  {
    if attrs == [] then None
    else if attrs[0].ItemId == productNumber then Some(attrs[0])
    else FirstAttribute(attrs[1..], productNumber)
  }

  /** A flag reads `Yes` only when it is present and 1. */
  function YesNo(flag: Option<int>): string {
    if flag == Some(1) then "Yes" else "No"
  }

  /** The `key=value` items `ProductAdditionalAttributes` appends, in order. */
  function AttributeItems(pa: Option<CustomAttribute>, t: Taxonomy): (items: seq<string>)
    ensures |items| == 24 && items[23] == "eligible_for_promo=No"
    ensures items[20] == "dax_taxonomy_family=" + t.Family && items[21] == "dax_taxonomy_category=" + t.Category
            && items[22] == "dax_taxonomy_line=" + t.Line
  {
    var a := pa.GetOr(NoAttribute);
    ["backorder_date=" + a.ATPDate.GetOr(""), "cost=" + a.Price, "country_of_manufacture=" + a.CountryOriginRegionId,
     "direct_ship=" + YesNo(a.Dropshipment), "discountable=" + YesNo(a.EndDisc), "exclusive=" + YesNo(a.ProprietaryType),
     "export_eligible=" + YesNo(a.ExportEligible), "extra_shipping_cost=" + a.MarkupGroupId, "iparcel_height=" + a.Height,
     "hts_code=" + a.HTSCode, "iparcel_length=" + a.Depth, "ship_alone=" + YesNo(a.ShipAlone), "weight=" + a.NetWeight,
     "iparcel_width=" + a.Width, "ormd=" + YesNo(a.HmimIndicator), "use_config_backorders=" + a.NoBackOrder,
     "top_seller=" + YesNo(a.Top200), "dax_californiaprop65=" + a.Prop65Script, "dax_status=" + a.StatusCode,
     "warrantable_item=" + a.BWGWarrantableFlag, "dax_taxonomy_family=" + t.Family, "dax_taxonomy_category=" + t.Category,
     "dax_taxonomy_line=" + t.Line, "eligible_for_promo=No"]
  }

  /** The `additional_attributes` text: the items, each but the last followed by a comma. */
  function AttributeText(pa: Option<CustomAttribute>, t: Taxonomy): string {
    Join(",", AttributeItems(pa, t))
  }

  /** The text always ends with the taxonomy family, category and line, then the fixed
      `eligible_for_promo=No`, after the first twenty items. */
  lemma AttributeTextTail(pa: Option<CustomAttribute>, t: Taxonomy)
    ensures AttributeText(pa, t) == Join(",", AttributeItems(pa, t)[..20])
      + "," + ("dax_taxonomy_family=" + t.Family) + "," + ("dax_taxonomy_category=" + t.Category)
      + "," + ("dax_taxonomy_line=" + t.Line) + "," + "eligible_for_promo=No"
  {
    var items := AttributeItems(pa, t);
    var head := Join(",", items[..20]);
    assert items[..21][..20] == items[..20] && items[..21][20] == items[20];
    assert Join(",", items[..21]) == head + "," + items[20];
    assert items[..22][..21] == items[..21] && items[..22][21] == items[21];
    assert Join(",", items[..22]) == head + "," + items[20] + "," + items[21];
    assert items[..23][..22] == items[..22] && items[..23][22] == items[22];
    assert Join(",", items[..23]) == head + "," + items[20] + "," + items[21] + "," + items[22];
    assert items[..23] == items[..|items| - 1];
  }

  /** The settings `MapToProductEntities` copies into every entity. */
  datatype ProductParams = ProductParams(AttributeSetCode: string, ProductWebsite: string)

  /** The parts of a `ProductEntity` the mapping sets. */
  datatype ProductEntity = ProductEntity(
    RecordId: int, CategoryId: int, Sku: string, Description: Option<string>, LanguageCode: string,
    AttributeSetCode: string, ProductWebsites: string, ProductType: string, ShortDescription: Option<string>,
    AdditionalAttributes: string, UnitOfMeasure: string, MultipleShippingGroup: string)

  /** The entity of one product. */
  function EntityOf(product: ErpProduct, categoryId: int, params: ProductParams, cats: seq<Category>,
                    attrs: seq<CustomAttribute>): ProductEntity {
    var pa := FirstAttribute(attrs, product.ProductNumber);
    var listId := if pa.Some? then pa.value.ListId else None;
    ProductEntity(
      product.RecordId, categoryId, product.ProductNumber, product.Description, product.LanguageCode,
      params.AttributeSetCode, params.ProductWebsite, if product.IsMasterProduct then "configurable" else "simple",
      product.Description, AttributeText(pa, TaxonomyOf(cats, categoryId)),
      product.DefaultUnitOfMeasure.GetOr(""),
      if listId.None? || IsBlank(listId.value) then "" else listId.value)
  }

  /** The second loop of `MapToProductEntities`: one entity per product, in order. */
  method MapEntities(erpProducts: seq<ErpProduct>, categoryId: int, requestParams: ProductParams,
                     categories: seq<Category>, productsCustomAttributes: seq<CustomAttribute>)
    returns (list: seq<ProductEntity>)
    ensures |list| == |erpProducts|
    ensures forall i :: 0 <= i < |erpProducts| ==>
      list[i] == EntityOf(erpProducts[i], categoryId, requestParams, categories, productsCustomAttributes)
  {
    list := [];
    for i := 0 to |erpProducts|
      invariant |list| == i
      invariant forall k :: 0 <= k < i ==>
        list[k] == EntityOf(erpProducts[k], categoryId, requestParams, categories, productsCustomAttributes)
    {
      var entity := EntityOf(erpProducts[i], categoryId, requestParams, categories, productsCustomAttributes);
      list := list + [entity];
    }
  }

  /** `MapToProductEntities`: localize each product, append its masters' variants,
      then map every product to an entity. */
  method MapToProductEntities(products: seq<ErpProduct>, categoryId: int, requestParams: ProductParams,
                              categories: seq<Category>, productsCustomAttributes: seq<CustomAttribute>,
                              defaultLanguage: string)
    returns (list: seq<ProductEntity>)
    ensures var all := AllProducts(products, defaultLanguage);
      |list| == |all| && forall i :: 0 <= i < |all| ==>
        list[i] == EntityOf(all[i], categoryId, requestParams, categories, productsCustomAttributes)
  {
    var erpProducts := LocalizeProducts(products, defaultLanguage);
    var variantsAsErpProducts := ConvertVariantsAsErpProducts(Masters(erpProducts), defaultLanguage);
    erpProducts := erpProducts + variantsAsErpProducts;
    list := MapEntities(erpProducts, categoryId, requestParams, categories, productsCustomAttributes);
  }

  /** The products mapped: the search results in order, each keeping its id, number
      and master flag, then one non-master product per variant of a master. */
  lemma AllProductsShape(products: seq<ErpProduct>, defaultLanguage: string)
    ensures var all := AllProducts(products, defaultLanguage);
      |all| == |products| + VariantCount(Masters(Localized(products, defaultLanguage)))
      && (forall i :: 0 <= i < |products| ==>
            all[i].RecordId == products[i].RecordId && all[i].ProductNumber == products[i].ProductNumber
            && all[i].IsMasterProduct == products[i].IsMasterProduct)
      && (forall i :: |products| <= i < |all| ==> !all[i].IsMasterProduct)
  {
    var masters := Masters(Localized(products, defaultLanguage));
    VariantProductsCount(masters, defaultLanguage);
    VariantProductsSound(masters, defaultLanguage);
    var all := AllProducts(products, defaultLanguage);
    forall i | |products| <= i < |all| ensures !all[i].IsMasterProduct {
      assert all[i] in VariantProducts(masters, defaultLanguage);
    }
  }

  /** The entities: one per search result, in order, as `configurable` exactly for a
      master, then one `simple` entity per variant of a master; all in the given
      category. */
  lemma EntitiesShape(products: seq<ErpProduct>, categoryId: int, params: ProductParams, cats: seq<Category>,
                      attrs: seq<CustomAttribute>, defaultLanguage: string)
    ensures var all := AllProducts(products, defaultLanguage);
      (forall i :: 0 <= i < |products| ==>
         var e := EntityOf(all[i], categoryId, params, cats, attrs);
         e.RecordId == products[i].RecordId && e.Sku == products[i].ProductNumber
         && (e.ProductType == "configurable" <==> products[i].IsMasterProduct))
      && (forall i :: |products| <= i < |all| ==> EntityOf(all[i], categoryId, params, cats, attrs).ProductType == "simple")
      && (forall i :: 0 <= i < |all| ==> EntityOf(all[i], categoryId, params, cats, attrs).CategoryId == categoryId)
  {
    AllProductsShape(products, defaultLanguage);
  }
}
