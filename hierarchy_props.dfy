/** Properties of the category dictionary that follow from those of its walk. */
module HierarchyProperties {
  import opened Wrappers
  import opened CategoryHierarchy

  /** One category whose positive parent id the lookup does not find makes the whole
      dictionary fail. */
  lemma MissingParentFailsHierarchy(cats: seq<Category>, i: nat, depth: int -> nat)
    requires WalkRanked(cats, depth) && i < |cats|
    requires cats[i].ParentCategory.GetOr(0) > 0 && Lookup(cats, cats[i].ParentCategory.value).None?
    ensures Hierarchy(cats, Paths(cats, depth), |cats|).Failure?
  {
    assert CategoryPath(cats, cats[i], depth).Failure?;
    FailedCategoryFailsHierarchy(cats, i, depth);
  }

  /** The category found for an id, when the lookup of its positive parent id finds
      nothing, makes the whole dictionary fail. */
  lemma FoundWithMissingParentFailsHierarchy(cats: seq<Category>, id: int, depth: int -> nat)
    requires WalkRanked(cats, depth) && Lookup(cats, id).Some?
    requires Lookup(cats, id).value.ParentCategory.GetOr(0) > 0
             && Lookup(cats, Lookup(cats, id).value.ParentCategory.value).None?
    ensures Hierarchy(cats, Paths(cats, depth), |cats|).Failure?
  {
    LookupFound(cats, id);
    var i :| 0 <= i < |cats| && cats[i] == Lookup(cats, id).value;
    MissingParentFailsHierarchy(cats, i, depth);
  }

  /** One category whose walk fails makes the whole dictionary fail. */
  lemma FailedCategoryFailsHierarchy(cats: seq<Category>, i: nat, depth: int -> nat)
    requires WalkRanked(cats, depth) && i < |cats|
    requires CategoryPath(cats, cats[i], depth).Failure?
    ensures Hierarchy(cats, Paths(cats, depth), |cats|).Failure?
  {
    FailedPathFailsHierarchy(cats, Paths(cats, depth), i);
  }

  /** What `GetCategoryHirarchy` reads from a built dictionary at the id of the last
      category carrying it: that category's root-first path. */
  lemma CategoryTextOfBuiltHierarchy(cats: seq<Category>, depth: int -> nat, i: nat)
    requires WalkRanked(cats, depth) && Hierarchy(cats, Paths(cats, depth), |cats|).Success? && i < |cats|
    requires forall j :: i < j < |cats| ==> cats[j].RecordId != cats[i].RecordId
    ensures CategoryPath(cats, cats[i], depth).Success?
            && CategoryText(Hierarchy(cats, Paths(cats, depth), |cats|).value, cats[i].RecordId)
               == CategoryPath(cats, cats[i], depth).value
  {
    BuiltEntry(cats, Paths(cats, depth), depth, i);
  }

  /** `CategoryTextOfBuiltHierarchy` with the paths named. */
  lemma BuiltEntry(cats: seq<Category>, paths: seq<Result<string, HierarchyError>>, depth: int -> nat, i: nat)
    requires WalkRanked(cats, depth) && paths == Paths(cats, depth)
    requires Hierarchy(cats, paths, |cats|).Success? && i < |cats|
    requires forall j :: i < j < |cats| ==> cats[j].RecordId != cats[i].RecordId
    ensures paths[i].Success? && CategoryText(Hierarchy(cats, paths, |cats|).value, cats[i].RecordId) == paths[i].value
  {
    HierarchyEntries(cats, paths, |cats|);
  }
}
