/** The category paths of `ProductController`: `BuildCategoryHierachy` walks each
    category's parent chain and records its root-first path, and
    `GetCategoryHirarchy` reads that dictionary. */
module CategoryHierarchy {
  import opened Wrappers
  import opened Text

  /** The parts of a retail `Category` the product mapping reads: its id, its parent
      (null for a root), its `Name`, and the text of its first name translation
      (`NameTranslations.FirstOrDefault()`, null when there is none). */
  datatype Category = Category(RecordId: int, ParentCategory: Option<int>, Name: string, NameTranslation: Option<string>)

  /** The one failure of the walk: a positive parent id that no category carries makes
      the source dereference null. */
  datatype HierarchyError = MissingParent(Id: int)

  /** The name of the retail root, written as the catalog's root when it is an ancestor. */
  const RetailRoot := "Rockler Product Hierarchy"
  const CatalogRoot := "Default Category"

  /** `categories.FirstOrDefault(c => c.RecordId == id)`. */
  function Lookup(cats: seq<Category>, id: int): Option<Category>
  {
    if cats == [] then None
    else if cats[0].RecordId == id then Some(cats[0])
    else Lookup(cats[1..], id)
  }

  /** `Lookup` returns the first category with the id, and nothing only when no
      category has it. */
  lemma {:induction false} LookupExactly(cats: seq<Category>, id: int)
    ensures Lookup(cats, id).None? <==> forall c | c in cats :: c.RecordId != id
    ensures Lookup(cats, id).Some? ==>
      var c := Lookup(cats, id).value;
      c in cats && c.RecordId == id && Lookup(cats, c.RecordId) == Some(c)
    ensures Lookup(cats, id).Some? ==>
      exists i :: 0 <= i < |cats| && cats[i] == Lookup(cats, id).value
                  && forall j :: 0 <= j < i ==> cats[j].RecordId != id
  {
    if cats != [] && cats[0].RecordId != id {
      LookupExactly(cats[1..], id);
      if Lookup(cats, id).Some? {
        var i :| 0 <= i < |cats[1..]| && cats[1..][i] == Lookup(cats, id).value
                 && forall j :: 0 <= j < i ==> cats[1..][j].RecordId != id;
        assert cats[i + 1] == cats[1..][i];
        assert forall j :: 1 <= j < i + 1 ==> cats[j] == cats[1..][j - 1];
      }
      assert forall c | c in cats :: c == cats[0] || c in cats[1..];
    }
  }

  /** What `Lookup` finds is at some position of the list. */
  lemma {:induction false} LookupFound(cats: seq<Category>, id: int)
    requires Lookup(cats, id).Some?
    ensures exists i :: 0 <= i < |cats| && cats[i] == Lookup(cats, id).value
  {
    if cats[0].RecordId != id {
      LookupFound(cats[1..], id);
      var i :| 0 <= i < |cats[1..]| && cats[1..][i] == Lookup(cats[1..], id).value;
      assert cats[i + 1] == cats[1..][i];
    }
  }

  /** The parent walk terminates from every category: along the chain of first
      matches, each parent id ranks below the id it is the parent of. (A cycle makes
      the source loop forever.) */
  predicate WalkRanked(cats: seq<Category>, depth: int -> nat) {
    forall c | c in cats && Lookup(cats, c.RecordId) == Some(c) && c.ParentCategory.GetOr(0) > 0 ::
      depth(c.ParentCategory.value) < depth(c.RecordId)
  }

  /** The name an ancestor contributes: the retail root is renamed. */
  function AncestorName(name: string): (n: string)
    ensures n != RetailRoot
    ensures name != RetailRoot ==> n == name
    ensures name == RetailRoot ==> n == CatalogRoot
  {
    if name == RetailRoot then CatalogRoot else name
  }

  /** The names one category adds to the walk: its first translation, renamed when it
      is an ancestor, or nothing when it has none. */
  function Entry(c: Category, ancestor: bool): seq<string> {
    match c.NameTranslation
    case None => []
    case Some(text) => [if ancestor then AncestorName(text) else text]
  }

  /** Prepending names to a walk's result, keeping its failure. */
  function Extend(acc: seq<string>, r: Result<seq<string>, HierarchyError>): Result<seq<string>, HierarchyError> {
    match r
    case Failure(e) => Failure(e)
    case Success(names) => Success(acc + names)
  }

  lemma ExtendTwice(a: seq<string>, b: seq<string>, r: Result<seq<string>, HierarchyError>)
    ensures Extend(a, Extend(b, r)) == Extend(a + b, r)
  {
    if r.Success? {
      assert a + (b + r.value) == (a + b) + r.value;
    }
  }

  /** The names the `while` loop adds from parent `parentId` up, nearest first. */
  function Ancestors(cats: seq<Category>, parentId: Option<int>, ghost depth: int -> nat): Result<seq<string>, HierarchyError>
    requires WalkRanked(cats, depth)
    decreases if parentId.GetOr(0) > 0 then depth(parentId.value) + 1 else 0
  {
    if parentId.GetOr(0) <= 0 then Success([])
    else
      match Lookup(cats, parentId.value)
      case None => Failure(MissingParent(parentId.value))
      case Some(parent) =>
        LookupExactly(cats, parentId.value);
        Extend(Entry(parent, true), Ancestors(cats, parent.ParentCategory, depth))
  }

  /** The names of `tempList` before it is reversed: the category's own, then its
      ancestors' nearest first. */
  function PathNames(cats: seq<Category>, c: Category, ghost depth: int -> nat): Result<seq<string>, HierarchyError>
    requires WalkRanked(cats, depth)
  {
    Extend(Entry(c, false), Ancestors(cats, c.ParentCategory, depth))
  }

  /** The dictionary value of one category: its names root-first, joined by `/`. */
  function CategoryPath(cats: seq<Category>, c: Category, ghost depth: int -> nat): Result<string, HierarchyError>
    requires WalkRanked(cats, depth)
  {
    match PathNames(cats, c, depth)
    case Failure(e) => Failure(e)
    case Success(names) => Success(Join("/", Reverse(names)))
  }

  /** One assignment `categoryHirarchy[id] = path`, or the failure that stopped the build. */
  function Record(m: Result<map<int, string>, HierarchyError>, id: int, path: Result<string, HierarchyError>): Result<map<int, string>, HierarchyError> {
    match m
    case Failure(e) => Failure(e)
    case Success(entries) =>
      match path
      case Failure(e) => Failure(e)
      case Success(text) => Success(entries[id := text])
  }

  /** The path of each category, in list order. */
  function Paths(cats: seq<Category>, ghost depth: int -> nat): (paths: seq<Result<string, HierarchyError>>)
    requires WalkRanked(cats, depth)
    ensures |paths| == |cats| && forall i :: 0 <= i < |cats| ==> paths[i] == CategoryPath(cats, cats[i], depth)
  {
    seq(|cats|, i requires 0 <= i < |cats| => CategoryPath(cats, cats[i], depth))
  }

  /** The dictionary after the first `n` categories, given each one's path, each
      assignment overwriting any earlier entry for the same id. */
  function Hierarchy(cats: seq<Category>, paths: seq<Result<string, HierarchyError>>, n: nat): Result<map<int, string>, HierarchyError>
    requires n <= |cats| == |paths|
  {
    if n == 0 then Success(map[])
    else Record(Hierarchy(cats, paths, n - 1), cats[n - 1].RecordId, paths[n - 1])
  }

  /** Once a category's walk fails, the whole dictionary fails with that error. */
  lemma {:induction false} HierarchyFailureStays(cats: seq<Category>, paths: seq<Result<string, HierarchyError>>, n: nat, m: nat)
    requires n <= m <= |cats| == |paths| && Hierarchy(cats, paths, n).Failure?
    ensures Hierarchy(cats, paths, m) == Hierarchy(cats, paths, n)
    decreases m - n
  {
    if n < m {
      HierarchyFailureStays(cats, paths, n, m - 1);
    }
  }

  /** The walk of `BuildCategoryHierachy` for one category: its own name, then the
      `while` loop up through its parents, giving `tempList` before it is reversed. */
  method WalkUp(categories: seq<Category>, category: Category, ghost depth: int -> nat)
    returns (r: Result<seq<string>, HierarchyError>)
    requires WalkRanked(categories, depth)
    ensures r == PathNames(categories, category, depth)
  {
    var tempList: seq<string> := [];
    if category.NameTranslation.Some? {
      tempList := tempList + [category.NameTranslation.value];
    }
    assert tempList == Entry(category, false);
    var parentCategoryId := category.ParentCategory;
    while parentCategoryId.GetOr(0) > 0
      invariant Extend(tempList, Ancestors(categories, parentCategoryId, depth)) == PathNames(categories, category, depth)
      decreases if parentCategoryId.GetOr(0) > 0 then depth(parentCategoryId.value) + 1 else 0
    {
      var parentCategory := Lookup(categories, parentCategoryId.value);
      if parentCategory.None? {
        return Failure(MissingParent(parentCategoryId.value));
      }
      LookupExactly(categories, parentCategoryId.value);
      ExtendTwice(tempList, Entry(parentCategory.value, true), Ancestors(categories, parentCategory.value.ParentCategory, depth));
      ghost var before := tempList;
      if parentCategory.value.NameTranslation.Some? {
        var text := parentCategory.value.NameTranslation.value;
        tempList := tempList + [if text == RetailRoot then CatalogRoot else text];
      }
      assert tempList == before + Entry(parentCategory.value, true);
      parentCategoryId := parentCategory.value.ParentCategory;
    }
    assert tempList + [] == tempList;
    return Success(tempList);
  }

  /** `BuildCategoryHierachy`: for each category, collect its own name and walk up
      through its parents, then store the reversed names joined by `/`. */
  method BuildCategoryHierarchy(categories: seq<Category>, ghost depth: int -> nat)
    returns (r: Result<map<int, string>, HierarchyError>)
    requires WalkRanked(categories, depth)
    ensures r == Hierarchy(categories, Paths(categories, depth), |categories|)
  {
    ghost var paths := Paths(categories, depth);
    var categoryHierarchy: map<int, string> := map[];
    for i := 0 to |categories|
      invariant Hierarchy(categories, paths, i) == Success(categoryHierarchy)
    {
      var category := categories[i];
      var tempList := WalkUp(categories, category, depth);
      if tempList.Failure? {
        HierarchyFailureStays(categories, paths, i + 1, |categories|);
        return Failure(tempList.error);
      }
      var path := Join("/", Reverse(tempList.value));
      categoryHierarchy := categoryHierarchy[category.RecordId := path];
    }
    return Success(categoryHierarchy);
  }

  /** `GetCategoryHirarchy`: the stored path of the id, or the empty string. */
  function CategoryText(hierarchy: map<int, string>, categoryId: int): (text: string)
    ensures categoryId in hierarchy ==> text == hierarchy[categoryId]
    ensures categoryId !in hierarchy ==> text == ""
  {
    if categoryId in hierarchy then hierarchy[categoryId] else ""
  }

  // ---------------------------------------------------------------- properties

  /** The dictionary fails exactly when some category's walk fails. */
  lemma {:induction false} HierarchyFailsExactly(cats: seq<Category>, paths: seq<Result<string, HierarchyError>>, n: nat)
    requires n <= |cats| == |paths|
    ensures Hierarchy(cats, paths, n).Failure? <==> exists i :: 0 <= i < n && paths[i].Failure?
  {
    if n > 0 {
      HierarchyFailsExactly(cats, paths, n - 1);
    }
  }

  /** Every category id gets an entry, and no other id does. */
  lemma {:induction false} HierarchyKeys(cats: seq<Category>, paths: seq<Result<string, HierarchyError>>, n: nat)
    requires n <= |cats| == |paths| && Hierarchy(cats, paths, n).Success?
    ensures Hierarchy(cats, paths, n).value.Keys == set i | 0 <= i < n :: cats[i].RecordId
  {
    if n > 0 {
      HierarchyKeys(cats, paths, n - 1);
      assert (set i | 0 <= i < n :: cats[i].RecordId) == (set i | 0 <= i < n - 1 :: cats[i].RecordId) + {cats[n - 1].RecordId};
    }
  }

  /** The entry of an id is the path of the last category carrying it. */
  lemma {:induction false} HierarchyEntries(cats: seq<Category>, paths: seq<Result<string, HierarchyError>>, n: nat)
    requires n <= |cats| == |paths| && Hierarchy(cats, paths, n).Success?
    ensures forall i :: 0 <= i < n && (forall j :: i < j < n ==> cats[j].RecordId != cats[i].RecordId) ==>
      paths[i].Success? && cats[i].RecordId in Hierarchy(cats, paths, n).value
      && Hierarchy(cats, paths, n).value[cats[i].RecordId] == paths[i].value
  {
    if n > 0 {
      HierarchyEntries(cats, paths, n - 1);
    }
  }

  /** An id no category carries reads as the empty path. */
  lemma UnknownCategoryText(cats: seq<Category>, paths: seq<Result<string, HierarchyError>>, id: int)
    requires |cats| == |paths| && Hierarchy(cats, paths, |cats|).Success?
    requires forall c | c in cats :: c.RecordId != id
    ensures CategoryText(Hierarchy(cats, paths, |cats|).value, id) == ""
  {
    HierarchyKeys(cats, paths, |cats|);
    forall i | 0 <= i < |cats| ensures cats[i].RecordId != id {
      assert cats[i] in cats;
    }
  }

  /** The walk fails only at a positive parent id that no category carries. */
  lemma {:induction false} AncestorsFailOnlyOnMissingParent(cats: seq<Category>, parentId: Option<int>, depth: int -> nat)
    requires WalkRanked(cats, depth) && Ancestors(cats, parentId, depth).Failure?
    ensures var id := Ancestors(cats, parentId, depth).error.Id;
      id > 0 && forall c | c in cats :: c.RecordId != id
    decreases if parentId.GetOr(0) > 0 then depth(parentId.value) + 1 else 0
  {
    LookupExactly(cats, parentId.value);
    if Lookup(cats, parentId.value).Some? {
      AncestorsFailOnlyOnMissingParent(cats, Lookup(cats, parentId.value).value.ParentCategory, depth);
    }
  }

  /** A category whose positive parent id no category carries has no path. */
  lemma MissingParentFailsPath(cats: seq<Category>, c: Category, depth: int -> nat)
    requires WalkRanked(cats, depth)
    requires c.ParentCategory.GetOr(0) > 0 && forall d | d in cats :: d.RecordId != c.ParentCategory.value
    ensures CategoryPath(cats, c, depth) == Failure(MissingParent(c.ParentCategory.value))
  {
    LookupExactly(cats, c.ParentCategory.value);
  }

  lemma FailedPathFailsHierarchy(cats: seq<Category>, paths: seq<Result<string, HierarchyError>>, i: nat)
    requires i < |cats| == |paths| && paths[i].Failure?
    ensures Hierarchy(cats, paths, |cats|).Failure?
  {
    HierarchyFailsExactly(cats, paths, |cats|);
  }

  /** No ancestor name is the retail root: it is always written as the catalog root. */
  lemma {:induction false} AncestorsRenameRetailRoot(cats: seq<Category>, parentId: Option<int>, depth: int -> nat)
    requires WalkRanked(cats, depth) && Ancestors(cats, parentId, depth).Success?
    ensures RetailRoot !in Ancestors(cats, parentId, depth).value
    decreases if parentId.GetOr(0) > 0 then depth(parentId.value) + 1 else 0
  {
    if parentId.GetOr(0) > 0 {
      LookupExactly(cats, parentId.value);
      var parent := Lookup(cats, parentId.value).value;
      AncestorsRenameRetailRoot(cats, parent.ParentCategory, depth);
    }
  }

  lemma JoinSnoc(sep: string, xs: seq<string>, x: string)
    requires xs != []
    ensures Join(sep, xs + [x]) == Join(sep, xs) + sep + x
  {
    assert (xs + [x])[..|xs|] == xs;
  }

  /** A root's path is its own name, never renamed, or empty without a translation. */
  lemma RootPath(cats: seq<Category>, c: Category, depth: int -> nat)
    requires WalkRanked(cats, depth) && c.ParentCategory.GetOr(0) <= 0
    ensures CategoryPath(cats, c, depth) == Success(if c.NameTranslation.Some? then c.NameTranslation.value else "")
  {
    assert Entry(c, false) + [] == Entry(c, false);
  }

  /** A child's path is its parent's path, then `/` and its own name, when both have a
      translation and the parent's is not the retail root. */
  lemma ChildPath(cats: seq<Category>, c: Category, parent: Category, depth: int -> nat)
    requires WalkRanked(cats, depth)
    requires c.ParentCategory.GetOr(0) > 0 && Lookup(cats, c.ParentCategory.value) == Some(parent)
    requires c.NameTranslation.Some? && parent.NameTranslation.Some? && parent.NameTranslation.value != RetailRoot
    requires CategoryPath(cats, parent, depth).Success?
    ensures CategoryPath(cats, c, depth) == Success(CategoryPath(cats, parent, depth).value + "/" + c.NameTranslation.value)
  {
    var up := Ancestors(cats, parent.ParentCategory, depth).value;
    var own := c.NameTranslation.value;
    assert Entry(parent, true) == Entry(parent, false);
    assert PathNames(cats, parent, depth) == Success(Entry(parent, false) + up);
    ExtendTwice([own], Entry(parent, true), Ancestors(cats, parent.ParentCategory, depth));
    var names := [own] + (Entry(parent, false) + up);
    assert PathNames(cats, c, depth) == Success(names);
    assert names[1..] == Entry(parent, false) + up;
    assert Reverse(names) == Reverse(names[1..]) + [own];
    JoinSnoc("/", Reverse(names[1..]), own);
  }

  /** Below a root named as the retail root, a child's path starts at the catalog root. */
  lemma ChildOfRetailRootPath(cats: seq<Category>, c: Category, root: Category, depth: int -> nat)
    requires WalkRanked(cats, depth)
    requires c.ParentCategory.GetOr(0) > 0 && Lookup(cats, c.ParentCategory.value) == Some(root)
    requires root.ParentCategory.GetOr(0) <= 0 && root.NameTranslation == Some(RetailRoot)
    requires c.NameTranslation.Some?
    ensures CategoryPath(cats, c, depth) == Success(CatalogRoot + "/" + c.NameTranslation.value)
  {
    var own := c.NameTranslation.value;
    assert Ancestors(cats, root.ParentCategory, depth) == Success([]);
    assert Entry(root, true) == [CatalogRoot];
    assert Ancestors(cats, c.ParentCategory, depth) == Success([CatalogRoot] + []);
    assert PathNames(cats, c, depth) == Success([own] + ([CatalogRoot] + []));
    assert [own] + ([CatalogRoot] + []) == [own, CatalogRoot];
    assert Reverse([own, CatalogRoot]) == [CatalogRoot, own];
    JoinSnoc("/", [CatalogRoot], own);
    assert [CatalogRoot] + [own] == [CatalogRoot, own];
    assert Join("/", [CatalogRoot]) == CatalogRoot;
  }
}
