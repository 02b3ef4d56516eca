/**
 * The service category the platform manager's stories keep in memory: an
 * integer id and a name.  Each story's entity holds its own seeded list;
 * the id tests compare with Python `==`, so `True` matches id 1.
 */
module ServiceCategory {
  import opened PyValue

  datatype Category = Category(categoryId: int, categoryName: string)

  /** The message an entity returns together with its list afterwards. */
  datatype Step = Step(message: string, categories: seq<Category>)

  /** `c["categoryID"] == categoryID` */
  predicate HasId(c: Category, id: Value) {
    PyEq(VInt(c.categoryId), id)
  }

  function IdMatcher(id: Value): Category -> bool {
    c => HasId(c, id)
  }

  predicate UniqueIds(cs: seq<Category>) {
    forall i, j :: 0 <= i < j < |cs| ==> cs[i].categoryId != cs[j].categoryId
  }

  /** `==` against one value holds for at most one integer. */
  lemma MatchedIdIsUnique(a: int, b: int, id: Value)
    ensures PyEq(VInt(a), id) && PyEq(VInt(b), id) ==> a == b
  {
  }
}
