/**
 * The platform manager searches service categories (UserStory37): the page
 * trims the query and refuses a blank one; the entity lists, one per line,
 * "id, name" for every category whose name contains the query ignoring case.
 * Searching reads the list and never changes it.
 */
module SearchCategory {
  import opened PyValue
  import opened Seqs
  import opened ServiceCategory

  const NoHits := "error message"

  /** The entity's seeded list. */
  function Seed(): seq<Category> {
    [Category(1, "Healthcare"), Category(2, "Transportation"), Category(3, "Housing"), Category(4, "Financial Aid")]
  }

  /** `data.lower() in c["categoryName"].lower()` */
  predicate NameHit(c: Category, data: string) {
    Contains(Lower(c.categoryName), Lower(data))
  }

  function HitOn(data: string): Category -> bool {
    c => NameHit(c, data)
  }

  /** `f"{c['categoryID']}, {c['categoryName']}"` */
  function HitLine(c: Category): string {
    IntToString(c.categoryId) + ", " + c.categoryName
  }

  /** The hit lines, in list order. */
  function Hits(cs: seq<Category>, data: string): seq<string> {
    MapSeq(Filter(cs, HitOn(data)), HitLine)
  }

  /** `Category.searchCategory` */
  function Search(cs: seq<Category>, data: string): string {
    var hits := Hits(cs, data);
    if hits == [] then NoHits else Join("\n", hits)
  }

  /** `SearchCategoryPage.submitSearch` */
  function SubmitSearch(cs: seq<Category>, data: string): string {
    var q := Strip(data);
    if q == "" then NoHits else Search(cs, q)
  }

  /** Every matching category contributes its line. */
  lemma MatchesAreHits(cs: seq<Category>, data: string, c: Category)
    requires c in cs && NameHit(c, data)
    ensures HitLine(c) in Hits(cs, data)
  {
    var f := Filter(cs, HitOn(data));
    FilterProperties(cs, HitOn(data));
    MapIndex(f, HitLine);
    assert HitOn(data)(c);
    assert c in f;
    var k :| 0 <= k < |f| && f[k] == c;
    assert Hits(cs, data)[k] == HitLine(c);
  }

  /** Every line is the line of a matching category. */
  lemma HitsAreMatches(cs: seq<Category>, data: string, k: nat)
    requires k < |Hits(cs, data)|
    ensures exists c :: c in cs && NameHit(c, data) && HitLine(c) == Hits(cs, data)[k]
  {
    var f := Filter(cs, HitOn(data));
    FilterProperties(cs, HitOn(data));
    MapIndex(f, HitLine);
    var c := f[k];
    assert c in f;
    assert HitOn(data)(c);
    assert HitLine(c) == Hits(cs, data)[k];
  }

  /**
   * The hits are exactly the matching categories' lines, at most one per
   * category, and there are none exactly when no name matches.
   */
  lemma HitsExact(cs: seq<Category>, data: string)
    ensures |Hits(cs, data)| <= |cs|
    ensures forall c :: c in cs && NameHit(c, data) ==> HitLine(c) in Hits(cs, data)
    ensures forall k :: 0 <= k < |Hits(cs, data)| ==>
      exists c :: c in cs && NameHit(c, data) && HitLine(c) == Hits(cs, data)[k]
    ensures Hits(cs, data) == [] <==> forall c :: c in cs ==> !NameHit(c, data)
  {
    FilterProperties(cs, HitOn(data));
    MapIndex(Filter(cs, HitOn(data)), HitLine);
    forall c | c in cs && NameHit(c, data) ensures HitLine(c) in Hits(cs, data) {
      MatchesAreHits(cs, data, c);
    }
    forall k | 0 <= k < |Hits(cs, data)|
      ensures exists c :: c in cs && NameHit(c, data) && HitLine(c) == Hits(cs, data)[k]
    {
      HitsAreMatches(cs, data, k);
    }
  }

  /** No hit gives "error message"; otherwise splitting the text at newlines gives the hit lines back. */
  lemma SearchReadsBack(cs: seq<Category>, data: string)
    requires forall c :: c in cs ==> '\n' !in c.categoryName
    ensures Hits(cs, data) == [] ==> Search(cs, data) == NoHits
    ensures Hits(cs, data) != [] ==> Split(Search(cs, data), '\n') == Hits(cs, data)
  {
    var f := Filter(cs, HitOn(data));
    var hits := Hits(cs, data);
    FilterProperties(cs, HitOn(data));
    MapIndex(f, HitLine);
    if hits != [] {
      forall i | 0 <= i < |hits| ensures '\n' !in hits[i] {
        assert f[i] in f;
        IntToStringShape(f[i].categoryId);
        assert hits[i] == IntToString(f[i].categoryId) + ", " + f[i].categoryName;
      }
      SplitJoin('\n', hits);
    }
  }

  /** The query's case does not matter. */
  lemma SearchIgnoresCase(cs: seq<Category>, data: string)
    ensures Search(cs, Upper(data)) == Search(cs, data)
    ensures Search(cs, Lower(data)) == Search(cs, data)
  {
    LowerOfUpper(data);
    LowerIdempotent(data);
    FilterSame(cs, HitOn(Upper(data)), HitOn(data));
    FilterSame(cs, HitOn(Lower(data)), HitOn(data));
  }

  /** The page's trimming: surrounding blanks in the query do not matter, and a blank query is refused. */
  lemma SubmitTrims(cs: seq<Category>, data: string)
    ensures Blank(data) ==> SubmitSearch(cs, data) == NoHits
    ensures !Blank(data) ==> SubmitSearch(cs, data) == Search(cs, Strip(data))
    ensures SubmitSearch(cs, Strip(data)) == SubmitSearch(cs, data)
  {
    StripIdempotent(data);
  }
}
