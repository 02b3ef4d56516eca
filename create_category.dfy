/**
 * The platform manager creates a service category (UserStory33): the page
 * trims the name and refuses a blank one, the entity refuses a name that
 * equals an existing one ignoring case, and otherwise appends a category
 * whose id is the list length plus one.
 */
module CreateCategory {
  import opened PyValue
  import opened ServiceCategory

  const EmptyName := "Error: Category name cannot be empty."

  /** The entity's seeded list. */
  function Seed(): seq<Category> {
    [Category(1, "Healthcare"), Category(2, "Transportation"), Category(3, "Housing")]
  }

  /** Some category's name equals `name` ignoring case. */
  predicate NameTaken(cs: seq<Category>, name: string) {
    exists i :: 0 <= i < |cs| && Lower(cs[i].categoryName) == Lower(name)
  }

  /** The message of `Category.createCategory` and the list it leaves. */
  function CreateStep(cs: seq<Category>, name: string): Step {
    if NameTaken(cs, name) then Step("error message", cs)
    else Step("successful", cs + [Category(|cs| + 1, name)])
  }

  /** Category names are pairwise distinct ignoring case. */
  predicate DistinctNames(cs: seq<Category>) {
    forall i, j :: 0 <= i < j < |cs| ==> Lower(cs[i].categoryName) != Lower(cs[j].categoryName)
  }

  /** The ids are 1 .. n in list order. */
  predicate ConsecutiveIds(cs: seq<Category>) {
    forall i :: 0 <= i < |cs| ==> cs[i].categoryId == i + 1
  }

  class CategoryList {
    var categories: seq<Category>

    predicate Valid()
      reads this
    {
      DistinctNames(categories) && ConsecutiveIds(categories)
    }

    constructor()
      ensures categories == Seed()
      ensures Valid()
    {
      categories := Seed();
    }

    /** `Category.createCategory`: the duplicate check loop, then the append. */
    method Create(name: string) returns (msg: string)
      modifies this
      ensures Step(msg, categories) == CreateStep(old(categories), name)
      ensures old(Valid()) ==> Valid()
    {
      var i := 0;
      while i < |categories|
        invariant 0 <= i <= |categories|
        invariant forall j :: 0 <= j < i ==> Lower(categories[j].categoryName) != Lower(name)
      {
        if Lower(categories[i].categoryName) == Lower(name) {
          return "error message";
        }
        i := i + 1;
      }
      CreateKeepsInvariants(categories, name);
      var newId := |categories| + 1;
      categories := categories + [Category(newId, name)];
      msg := "successful";
    }
  }

  /** `CreateCategoryPage.submitCreateCategory`: the trimmed name goes on, a blank one is refused. */
  method SubmitCreateCategory(list: CategoryList, categoryName: string) returns (msg: string)
    modifies list
    ensures Blank(categoryName) ==> msg == EmptyName && list.categories == old(list.categories)
    ensures !Blank(categoryName) ==> Step(msg, list.categories) == CreateStep(old(list.categories), Strip(categoryName))
    ensures old(list.Valid()) ==> list.Valid()
  {
    var name := Strip(categoryName);
    if name == "" {
      return EmptyName;
    }
    msg := list.Create(name);
  }

  /** Creating keeps the names distinct ignoring case and the ids consecutive. */
  lemma CreateKeepsInvariants(cs: seq<Category>, name: string)
    ensures DistinctNames(cs) ==> DistinctNames(CreateStep(cs, name).categories)
    ensures ConsecutiveIds(cs) ==> ConsecutiveIds(CreateStep(cs, name).categories)
  {
    if !NameTaken(cs, name) && DistinctNames(cs) {
      var after := cs + [Category(|cs| + 1, name)];
      forall i, j | 0 <= i < j < |after|
        ensures Lower(after[i].categoryName) != Lower(after[j].categoryName)
      {
        if j == |cs| {
          assert after[i] == cs[i];
        } else {
          assert after[i] == cs[i] && after[j] == cs[j];
        }
      }
    }
  }

  /** A taken name is refused and leaves the list as it was; a fresh one is appended with id n + 1. */
  lemma CreateOutcome(cs: seq<Category>, name: string)
    ensures CreateStep(cs, name).message == "successful" <==> !NameTaken(cs, name)
    ensures NameTaken(cs, name) ==> CreateStep(cs, name) == Step("error message", cs)
    ensures !NameTaken(cs, name) ==>
      |CreateStep(cs, name).categories| == |cs| + 1 &&
      CreateStep(cs, name).categories[..|cs|] == cs &&
      CreateStep(cs, name).categories[|cs|] == Category(|cs| + 1, name)
  {
  }

  /** Once a name is created, the same name in any case is refused. */
  lemma CreateTwiceRefused(cs: seq<Category>, name: string)
    requires CreateStep(cs, name).message == "successful"
    ensures CreateStep(CreateStep(cs, name).categories, name).message == "error message"
    ensures CreateStep(CreateStep(cs, name).categories, Upper(name)).message == "error message"
  {
    var after := CreateStep(cs, name).categories;
    assert after[|cs|].categoryName == name;
    LowerOfUpper(name);
    assert Lower(after[|cs|].categoryName) == Lower(Upper(name));
  }

  /** The seeded list satisfies both invariants. */
  lemma SeedValid()
    ensures DistinctNames(Seed()) && ConsecutiveIds(Seed())
  {
    var s := Seed();
    assert |Lower(s[0].categoryName)| == 10;
    assert |Lower(s[1].categoryName)| == 14;
    assert |Lower(s[2].categoryName)| == 7;
  }
}
