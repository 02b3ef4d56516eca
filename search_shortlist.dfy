/**
 * A CSR searches the shortlist (UserStory23): the same six criteria as the
 * PIN search, applied only to shortlisted requests unless the caller asks
 * for every request.
 */
module SearchShortlist {
  import opened PyValue
  import opened Seqs
  import Shortlist
  import SearchRequest

  const NotADict := "Error: Search data must be a dictionary."
  const NoLoader := "Error: load_requests function not provided."

  /** `shortlisted and not is_shortlisted` skips a request. */
  predicate Kept(r: Record, shortlisted: Value, c: SearchRequest.Criteria) {
    (!Truthy(shortlisted) || Shortlist.IsShortlisted(r)) && SearchRequest.MatchesCriteria(r, c)
  }

  function Keeper(shortlisted: Value, c: SearchRequest.Criteria): Record -> bool {
    r => Kept(r, shortlisted, c)
  }

  /** `Request.searchRequest` (the shortlist variant) */
  method EntitySearch(shortlisted: Value, d: Record, all: seq<Record>) returns (matched: seq<Record>)
    ensures matched == Filter(all, Keeper(shortlisted, SearchRequest.CriteriaOf(d)))
  {
    var c := SearchRequest.CriteriaOf(d);
    matched := [];
    var i := 0;
    while i < |all|
      invariant 0 <= i <= |all|
      invariant matched == Filter(all[..i], Keeper(shortlisted, c))
    {
      var req := all[i];
      FilterSnoc(all[..i], req, Keeper(shortlisted, c));
      assert all[..i + 1] == all[..i] + [req];
      var isShortlisted := Shortlist.ShortlistSignal(req);
      if !(Truthy(shortlisted) && !isShortlisted) && SearchRequest.MatchesCriteria(req, c) {
        matched := matched + [req];
      }
      i := i + 1;
    }
    assert all[..|all|] == all;
  }

  /**
   * `SearchRequestController.searchRequest` (UserStory23): missing data is an
   * empty query and a missing `shortlisted` means True.
   */
  method SearchShortlist(shortlisted: Value, data: Arg, loaded: Option<seq<Record>>)
    returns (res: Outcome<seq<Record>>)
    ensures data.OtherArg? ==> res == Err(NotADict)
    ensures !data.OtherArg? && loaded.None? ==> res == Err(NoLoader)
    ensures !data.OtherArg? && loaded.Some? ==>
      var d := if data.DictArg? then data.d else map[];
      var flag := if shortlisted == VNone then VBool(true) else shortlisted;
      res == Ok(Filter(loaded.value, Keeper(flag, SearchRequest.CriteriaOf(d))))
  {
    var d: Record := map[];
    if data.DictArg? {
      d := data.d;
    } else if data.OtherArg? {
      return Err(NotADict);
    }
    var flag := shortlisted;
    if flag == VNone {
      flag := VBool(true);
    }
    if loaded.None? {
      return Err(NoLoader);
    }
    var m := EntitySearch(flag, d, loaded.value);
    res := Ok(m);
  }

  /** With the flag set, the result is the PIN search run over the shortlisted requests only. */
  lemma ShortlistedThenSearched(shortlisted: Value, c: SearchRequest.Criteria, all: seq<Record>)
    requires Truthy(shortlisted)
    ensures Filter(all, Keeper(shortlisted, c)) ==
      Filter(Filter(all, r => Shortlist.IsShortlisted(r)), SearchRequest.SearchMatcher(c))
  {
    FilterAnd(all, r => Shortlist.IsShortlisted(r), SearchRequest.SearchMatcher(c), Keeper(shortlisted, c));
  }

  /** With the flag cleared, the result is exactly the PIN search over every request. */
  lemma UnflaggedIsPinSearch(shortlisted: Value, c: SearchRequest.Criteria, all: seq<Record>)
    requires !Truthy(shortlisted)
    ensures Filter(all, Keeper(shortlisted, c)) == Filter(all, SearchRequest.SearchMatcher(c))
  {
    FilterSame(all, Keeper(shortlisted, c), SearchRequest.SearchMatcher(c));
  }

  /** With the flag set, every request returned is shortlisted. */
  lemma OnlyShortlisted(shortlisted: Value, c: SearchRequest.Criteria, all: seq<Record>)
    requires Truthy(shortlisted)
    ensures forall r :: r in Filter(all, Keeper(shortlisted, c)) ==> Shortlist.IsShortlisted(r)
  {
    FilterProperties(all, Keeper(shortlisted, c));
  }
}
