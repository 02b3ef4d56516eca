/**
 * The platform manager deletes a service category (UserStory36): the page
 * first answers "confirmation" without touching anything, and the confirmed
 * delete removes the first category with the id.
 */
module DeleteCategory {
  import opened PyValue
  import opened Seqs
  import opened ServiceCategory

  /** The entity's seeded list. */
  function Seed(): seq<Category> {
    [Category(1, "Healthcare"), Category(2, "Transportation"), Category(3, "Housing"), Category(4, "Financial Aid")]
  }

  /** The message of `Category.deleteRequest` and the list it leaves. */
  function DeleteStep(cs: seq<Category>, id: Value): Step {
    match FirstIndex(cs, IdMatcher(id))
    case None => Step("unsuccessful", cs)
    case Some(k) => Step("successful", cs[..k] + cs[k + 1..])
  }

  class CategoryList {
    var categories: seq<Category>

    constructor()
      ensures categories == Seed()
    {
      categories := Seed();
    }

    /**
     * `Category.deleteRequest`: a loop over a copy of the list; the first
     * category with the id is removed with `list.remove`.
     */
    method DeleteRequest(id: Value) returns (msg: string)
      modifies this
      ensures Step(msg, categories) == DeleteStep(old(categories), id)
    {
      var snapshot := categories;
      var i := 0;
      while i < |snapshot|
        invariant 0 <= i <= |snapshot|
        invariant categories == snapshot == old(categories)
        invariant forall j :: 0 <= j < i ==> !HasId(snapshot[j], id)
      {
        var c := snapshot[i];
        if PyEq(VInt(c.categoryId), id) {
          FirstAt(snapshot, id, i);
          RemoveFirstAt(categories, i);
          categories := RemoveFirst(categories, c);
          return "successful";
        }
        i := i + 1;
      }
      NoMatch(snapshot, id);
      msg := "unsuccessful";
    }
  }

  lemma FirstAt(cs: seq<Category>, id: Value, i: nat)
    requires i < |cs| && HasId(cs[i], id)
    requires forall j :: 0 <= j < i ==> !HasId(cs[j], id)
    ensures FirstIndex(cs, IdMatcher(id)) == Some(i)
    ensures forall j :: 0 <= j < i ==> cs[j] != cs[i]
  {
    assert IdMatcher(id)(cs[i]);
    assert forall j :: 0 <= j < i ==> !IdMatcher(id)(cs[j]);
  }

  lemma NoMatch(cs: seq<Category>, id: Value)
    requires forall j :: 0 <= j < |cs| ==> !HasId(cs[j], id)
    ensures FirstIndex(cs, IdMatcher(id)) == None
  {
    forall j | 0 <= j < |cs| ensures !IdMatcher(id)(cs[j]) {
    }
  }

  /** `DeleteCategoryPage.deleteCategory`: asks for confirmation and changes nothing. */
  method AskConfirmation(list: CategoryList, id: Value) returns (msg: string)
    ensures msg == "confirmation"
  {
    msg := "confirmation";
  }

  /** `DeleteCategoryPage.deleteConfirm`, through the controller's `deleteRequest`. */
  method DeleteConfirm(list: CategoryList, id: Value) returns (msg: string)
    modifies list
    ensures Step(msg, list.categories) == DeleteStep(old(list.categories), id)
  {
    msg := list.DeleteRequest(id);
  }

  /**
   * A successful delete drops exactly the first category with the id; the
   * others keep their order.  An unknown id is unsuccessful and changes nothing.
   */
  lemma DeleteDropsOne(cs: seq<Category>, id: Value)
    ensures DeleteStep(cs, id).message == "successful" <==> exists j :: 0 <= j < |cs| && HasId(cs[j], id)
    ensures DeleteStep(cs, id).message != "successful" ==> DeleteStep(cs, id).categories == cs
    ensures DeleteStep(cs, id).message == "successful" ==>
      var k := FirstIndex(cs, IdMatcher(id)).value;
      var after := DeleteStep(cs, id).categories;
      |after| == |cs| - 1 && HasId(cs[k], id) &&
      (forall j :: 0 <= j < k ==> after[j] == cs[j]) &&
      (forall j :: k <= j < |after| ==> after[j] == cs[j + 1]) &&
      multiset(after) == multiset(cs) - multiset{cs[k]}
  {
    var k := FirstIndex(cs, IdMatcher(id));
    if k.Some? {
      PopAt(cs, k.value);
      assert HasId(cs[k.value], id) by { assert IdMatcher(id)(cs[k.value]); }
    } else {
      forall j | 0 <= j < |cs| ensures !HasId(cs[j], id) {
        assert !IdMatcher(id)(cs[j]);
      }
    }
  }

  /** With unique ids, deleting the same id a second time is unsuccessful. */
  lemma RepeatedDeleteUnsuccessful(cs: seq<Category>, id: Value)
    requires UniqueIds(cs)
    requires DeleteStep(cs, id).message == "successful"
    ensures DeleteStep(DeleteStep(cs, id).categories, id) == Step("unsuccessful", DeleteStep(cs, id).categories)
  {
    var k := FirstIndex(cs, IdMatcher(id)).value;
    var after := DeleteStep(cs, id).categories;
    DeleteDropsOne(cs, id);
    forall j | 0 <= j < |after| ensures !HasId(after[j], id) {
      var src := if j < k then j else j + 1;
      assert after[j] == cs[src];
      if src < k {
        assert cs[src].categoryId != cs[k].categoryId;
      } else {
        assert cs[k].categoryId != cs[src].categoryId;
      }
      MatchedIdIsUnique(cs[src].categoryId, cs[k].categoryId, id);
    }
    NoMatch(after, id);
  }
}
