/** Properties of the product mapping that relate it to the category dictionary. */
module ProductProperties {
  import opened Wrappers
  import opened CategoryHierarchy
  import opened HierarchyProperties
  import opened ProductMapping

  /** The failure is masked where the source runs: the same categories make
      `BuildCategoryHierachy` fail first, since the line's own walk reaches the
      missing parent. */
  lemma TaxonomyFailureMaskedByHierarchy(cats: seq<Category>, categoryId: int, depth: int -> nat)
    requires WalkRanked(cats, depth) && TaxonomyAsWritten(cats, categoryId).Failure?
    ensures Hierarchy(cats, Paths(cats, depth), |cats|).Failure?
  {
    TaxonomyAsWrittenAgrees(cats, categoryId);
    FoundWithMissingParentFailsHierarchy(cats, categoryId, depth);
  }
}
