/**
 * The platform manager renames a service category (UserStory35): the page
 * refuses an id that is not a positive int and a blank name and passes the
 * trimmed name on; the entity renames the first category with that id.
 */
module UpdateCategory {
  import opened PyValue
  import opened Seqs
  import opened ServiceCategory

  /** The entity's seeded list. */
  function Seed(): seq<Category> {
    [Category(1, "Healthcare"), Category(2, "Transportation"), Category(3, "Housing"), Category(4, "Financial Aid")]
  }

  /** The message of `Category.submitUpdate` and the list it leaves. */
  function UpdateStep(cs: seq<Category>, id: Value, newName: string): Step {
    match FirstIndex(cs, IdMatcher(id))
    case None => Step("error message", cs)
    case Some(k) =>
      if Blank(newName) then Step("error message", cs)
      else Step("successful", cs[k := cs[k].(categoryName := newName)])
  }

  /**
   * `isinstance(categoryID, int) and categoryID > 0`; a bool is an int in
   * Python, and only `True` is positive.
   */
  predicate PositiveIntId(id: Value) {
    (id.VInt? && id.i > 0) || id == VBool(true)
  }

  class CategoryList {
    var categories: seq<Category>

    constructor()
      ensures categories == Seed()
    {
      categories := Seed();
    }

    /** `Category.submitUpdate`: the first category with the id is renamed in place. */
    method SubmitUpdate(id: Value, newName: string) returns (msg: string)
      modifies this
      ensures Step(msg, categories) == UpdateStep(old(categories), id, newName)
    {
      var i := 0;
      while i < |categories|
        invariant 0 <= i <= |categories|
        invariant categories == old(categories)
        invariant forall j :: 0 <= j < i ==> !HasId(categories[j], id)
      {
        if PyEq(VInt(categories[i].categoryId), id) {
          if Blank(newName) {
            return "error message";
          }
          FirstAt(categories, id, i);
          categories := categories[i := categories[i].(categoryName := newName)];
          return "successful";
        }
        i := i + 1;
      }
      NoMatch(categories, id);
      msg := "error message";
    }
  }

  lemma FirstAt(cs: seq<Category>, id: Value, i: nat)
    requires i < |cs| && HasId(cs[i], id)
    requires forall j :: 0 <= j < i ==> !HasId(cs[j], id)
    ensures FirstIndex(cs, IdMatcher(id)) == Some(i)
  {
    assert IdMatcher(id)(cs[i]);
    assert forall j :: 0 <= j < i ==> !IdMatcher(id)(cs[j]);
  }

  lemma NoMatch(cs: seq<Category>, id: Value)
    requires forall j :: 0 <= j < |cs| ==> !HasId(cs[j], id)
    ensures FirstIndex(cs, IdMatcher(id)) == None
  {
    forall j | 0 <= j < |cs| ensures !IdMatcher(id)(cs[j]) {
    }
  }

  /** `UpdateCategoryPage.updateInfo`: the id and the trimmed name are checked first. */
  method UpdateInfo(list: CategoryList, id: Value, newName: string) returns (msg: string)
    modifies list
    ensures !PositiveIntId(id) || Blank(newName) ==> msg == "error message" && list.categories == old(list.categories)
    ensures PositiveIntId(id) && !Blank(newName) ==>
      Step(msg, list.categories) == UpdateStep(old(list.categories), id, Strip(newName))
  {
    var name := Strip(newName);
    if !((id.VInt? && id.i > 0) || id == VBool(true)) || name == "" {
      return "error message";
    }
    msg := list.SubmitUpdate(id, name);
  }

  /**
   * Only the first category with the id changes, and only its name: the
   * length, every id and every other category stay as they were.
   */
  lemma UpdateOnlyFirst(cs: seq<Category>, id: Value, newName: string)
    ensures |UpdateStep(cs, id, newName).categories| == |cs|
    ensures forall j :: 0 <= j < |cs| ==> UpdateStep(cs, id, newName).categories[j].categoryId == cs[j].categoryId
    ensures UpdateStep(cs, id, newName).message == "successful" <==>
      FirstIndex(cs, IdMatcher(id)).Some? && !Blank(newName)
    ensures UpdateStep(cs, id, newName).message == "successful" ==>
      var k := FirstIndex(cs, IdMatcher(id)).value;
      UpdateStep(cs, id, newName).categories[k].categoryName == newName &&
      forall j :: 0 <= j < |cs| && j != k ==> UpdateStep(cs, id, newName).categories[j] == cs[j]
    ensures UpdateStep(cs, id, newName).message != "successful" ==> UpdateStep(cs, id, newName).categories == cs
  {
  }

  /** An id no category has is refused and nothing changes. */
  lemma UnknownIdRefused(cs: seq<Category>, id: Value, newName: string)
    requires forall j :: 0 <= j < |cs| ==> !HasId(cs[j], id)
    ensures UpdateStep(cs, id, newName) == Step("error message", cs)
  {
    NoMatch(cs, id);
  }

  /** Python's `True == 1` lets the page's `True` pass as an id, and it renames category 1. */
  lemma TrueSelectsFirstCategory(name: string)
    requires !Blank(name)
    ensures PositiveIntId(VBool(true))
    ensures UpdateStep(Seed(), VBool(true), name).categories[0] == Category(1, name)
  {
    FirstAt(Seed(), VBool(true), 0);
  }
}
