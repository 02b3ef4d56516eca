/**
 * A PIN searches their requests (UserStory17): each criterion is read under
 * its two accepted keys; with no criterion every request is returned, and
 * otherwise a request is kept when it passes every criterion given.
 */
module SearchRequest {
  import opened PyValue
  import opened Seqs
  import ViewRequest

  const NotADict := "Error: Search data must be a dictionary."
  const NoLoader := "Error: load_requests function not provided."

  /** The six criteria, each `data.get(key) or data.get(alias)`. */
  datatype Criteria = Criteria(id: Value, title: Value, category: Value, date: Value, status: Value, keyword: Value)

  function CriteriaOf(d: Record): Criteria {
    Criteria(
      Or(Get(d, "id"), Get(d, "requestID")),
      Or(Get(d, "title"), Get(d, "requestTitle")),
      Or(Get(d, "category"), Get(d, "requestCategory")),
      Or(Get(d, "date"), Get(d, "requestDate")),
      Or(Get(d, "status"), Get(d, "requestStatus")),
      Or(Get(d, "keyword"), Get(d, "search")))
  }

  /** `not any([...])` */
  predicate NoCriteria(c: Criteria) {
    !Truthy(c.id) && !Truthy(c.title) && !Truthy(c.category) && !Truthy(c.date) &&
    !Truthy(c.status) && !Truthy(c.keyword)
  }

  /** `str(req.get(k, '')).lower()` */
  function FieldLower(r: Record, k: string): string {
    Lower(Str(GetOr(r, k, VStr(""))))
  }

  /** A case-insensitive substring test on one field, passed when the criterion is falsy. */
  predicate LikeField(r: Record, k: string, crit: Value) {
    !Truthy(crit) || Contains(FieldLower(r, k), Lower(Str(crit)))
  }

  predicate IdPasses(r: Record, crit: Value) {
    !Truthy(crit) || ViewRequest.MatchesQuery(r, crit)
  }

  /** The date is compared as a stripped substring, without lower-casing. */
  predicate DatePasses(r: Record, crit: Value) {
    !Truthy(crit) || Contains(Strip(Str(GetOr(r, "date", VStr("")))), Strip(Str(crit)))
  }

  predicate KeywordPasses(r: Record, crit: Value) {
    !Truthy(crit) ||
    var kw := Lower(Str(crit));
    Contains(FieldLower(r, "title"), kw) || Contains(FieldLower(r, "description"), kw) ||
    Contains(FieldLower(r, "category"), kw)
  }

  /** A request matches when it passes every criterion that was given. */
  predicate MatchesCriteria(r: Record, c: Criteria) {
    IdPasses(r, c.id) && LikeField(r, "title", c.title) && LikeField(r, "category", c.category) &&
    DatePasses(r, c.date) && LikeField(r, "status", c.status) && KeywordPasses(r, c.keyword)
  }

  function SearchMatcher(c: Criteria): Record -> bool {
    r => MatchesCriteria(r, c)
  }

  /** `Request.searchRequest` */
  method EntitySearchRequest(d: Record, all: seq<Record>) returns (matched: seq<Record>)
    ensures matched == Filter(all, SearchMatcher(CriteriaOf(d)))
  {
    var c := CriteriaOf(d);
    if NoCriteria(c) {
      NoCriteriaKeepsAll(all, c);
      return all;
    }
    matched := [];
    var i := 0;
    while i < |all|
      invariant 0 <= i <= |all|
      invariant matched == Filter(all[..i], SearchMatcher(c))
    {
      var req := all[i];
      var m := true;
      if Truthy(c.id) && !ViewRequest.MatchesQuery(req, c.id) {
        m := false;
      }
      if m && Truthy(c.title) && !Contains(FieldLower(req, "title"), Lower(Str(c.title))) {
        m := false;
      }
      if m && Truthy(c.category) && !Contains(FieldLower(req, "category"), Lower(Str(c.category))) {
        m := false;
      }
      if m && Truthy(c.date) && !Contains(Strip(Str(GetOr(req, "date", VStr("")))), Strip(Str(c.date))) {
        m := false;
      }
      if m && Truthy(c.status) && !Contains(FieldLower(req, "status"), Lower(Str(c.status))) {
        m := false;
      }
      if m && !KeywordPasses(req, c.keyword) {
        m := false;
      }
      FilterSnoc(all[..i], req, SearchMatcher(c));
      assert all[..i + 1] == all[..i] + [req];
      if m {
        matched := matched + [req];
      }
      i := i + 1;
    }
    assert all[..|all|] == all;
  }

  /** With no criterion every request passes, so the early `return all_requests` agrees with the filter. */
  lemma NoCriteriaKeepsAll(all: seq<Record>, c: Criteria)
    requires NoCriteria(c)
    ensures Filter(all, SearchMatcher(c)) == all
  {
    FilterAll(all, SearchMatcher(c));
  }

  /** `SearchRequestController.searchRequest`; an empty dict is a valid query. */
  method SearchRequest(data: Arg, loaded: Option<seq<Record>>) returns (res: Outcome<seq<Record>>)
    ensures !data.DictArg? ==> res == Err(NotADict)
    ensures data.DictArg? && loaded.None? ==> res == Err(NoLoader)
    ensures data.DictArg? && loaded.Some? ==>
      res.Ok? && IsSubseq(res.value, loaded.value) &&
      forall r :: r in res.value <==> r in loaded.value && MatchesCriteria(r, CriteriaOf(data.d))
    ensures data.DictArg? && loaded.Some? ==> res == Ok(Filter(loaded.value, SearchMatcher(CriteriaOf(data.d))))
  {
    if !data.DictArg? {
      return Err(NotADict);
    }
    if loaded.None? {
      return Err(NoLoader);
    }
    var m := EntitySearchRequest(data.d, loaded.value);
    FilterProperties(loaded.value, SearchMatcher(CriteriaOf(data.d)));
    res := Ok(m);
  }

  /** Dropping a criterion never loses a match. */
  lemma FewerCriteriaKeepMatches(r: Record, c: Criteria)
    requires MatchesCriteria(r, c)
    ensures MatchesCriteria(r, c.(title := VNone))
    ensures MatchesCriteria(r, c.(category := VNone))
    ensures MatchesCriteria(r, c.(date := VNone))
    ensures MatchesCriteria(r, c.(status := VNone))
    ensures MatchesCriteria(r, c.(keyword := VNone))
    ensures MatchesCriteria(r, c.(id := VNone))
  {
  }

  /** Title, category, status and keyword criteria ignore the case of the query. */
  lemma CaseInsensitive(r: Record, c: Criteria, s: string)
    ensures MatchesCriteria(r, c.(title := VStr(Upper(s)))) == MatchesCriteria(r, c.(title := VStr(s)))
    ensures MatchesCriteria(r, c.(category := VStr(Upper(s)))) == MatchesCriteria(r, c.(category := VStr(s)))
    ensures MatchesCriteria(r, c.(status := VStr(Upper(s)))) == MatchesCriteria(r, c.(status := VStr(s)))
    ensures MatchesCriteria(r, c.(keyword := VStr(Upper(s)))) == MatchesCriteria(r, c.(keyword := VStr(s)))
  {
    LowerOfUpper(s);
  }
}
