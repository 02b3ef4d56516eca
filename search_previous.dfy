/**
 * A PIN searches their previous requests (UserStory29): requests in the
 * target status (default 'Completed', compared case-insensitively) that pass
 * every exact-or-substring filter, the keyword, the category and the date.
 */
module SearchPrevious {
  import opened PyValue
  import opened Seqs

  const NotDicts := "Error: search data must be dictionaries."
  const NoLoader := "Error: load_requests function not provided."

  /**
   * One entry of `_matches_filters`: a str expected value is a case-insensitive
   * substring of the field (a falsy field reads as ''); any other value must be `==`.
   */
  predicate FilterPasses(req: Record, key: string, expected: Value) {
    if expected.VStr? then Contains(Lower(Str(Or(Get(req, key), VStr("")))), Lower(expected.s))
    else PyEq(Get(req, key), expected)
  }

  predicate FiltersPass(req: Record, filters: Record) {
    forall k :: k in filters ==> FilterPasses(req, k, filters[k])
  }

  /**
   * `_matches_filters`: the first failing entry returns False.  Python visits
   * the keys in insertion order; the verdict does not depend on the order.
   */
  method MatchesFilters(req: Record, filters: Record) returns (ok: bool)
    ensures ok == FiltersPass(req, filters)
  {
    var keys := filters.Keys;
    while keys != {}
      invariant keys <= filters.Keys
      invariant forall k :: k in filters && k !in keys ==> FilterPasses(req, k, filters[k])
      decreases keys
    {
      var k :| k in keys;
      var expected := filters[k];
      var value := Get(req, k);
      if expected.VStr? {
        if !Contains(Lower(Str(Or(value, VStr("")))), Lower(expected.s)) {
          return false;
        }
      } else if !PyEq(value, expected) {
        return false;
      }
      keys := keys - {k};
    }
    return true;
  }

  /** The search inputs of `data`. */
  datatype Query = Query(keyword: Value, category: Value, date: Value)

  function QueryOf(data: Record): Query {
    Query(Or(Get(data, "keyword"), Get(data, "search")), Get(data, "category"), Get(data, "date"))
  }

  /** `str(req.get(k, '')).lower()` */
  function FieldLower(r: Record, k: string): string {
    Lower(Str(GetOr(r, k, VStr(""))))
  }

  predicate StatusPasses(req: Record, requestStatus: Value) {
    var target := Lower(Str(requestStatus));
    target == "" || FieldLower(req, "status") == target
  }

  predicate QueryPasses(req: Record, q: Query) {
    (!Truthy(q.keyword) ||
      var kw := Lower(Str(q.keyword));
      Contains(FieldLower(req, "title"), kw) || Contains(FieldLower(req, "description"), kw) ||
      Contains(FieldLower(req, "location"), kw)) &&
    (!Truthy(q.category) || Contains(FieldLower(req, "category"), Lower(Str(q.category)))) &&
    (!Truthy(q.date) || Contains(Strip(Str(GetOr(req, "date", VStr("")))), Strip(Str(q.date))))
  }

  predicate Previous(req: Record, requestStatus: Value, filters: Record, q: Query) {
    StatusPasses(req, requestStatus) && FiltersPass(req, filters) && QueryPasses(req, q)
  }

  function PreviousMatcher(requestStatus: Value, filters: Record, q: Query): Record -> bool {
    r => Previous(r, requestStatus, filters, q)
  }

  /** `Request.searchRequest` (previous requests) */
  method EntitySearchPrevious(requestStatus: Value, filters: Record, data: Record, all: seq<Record>)
    returns (matched: seq<Record>)
    ensures matched == Filter(all, PreviousMatcher(requestStatus, filters, QueryOf(data)))
  {
    var q := QueryOf(data);
    var p := PreviousMatcher(requestStatus, filters, q);
    matched := [];
    var i := 0;
    while i < |all|
      invariant 0 <= i <= |all|
      invariant matched == Filter(all[..i], p)
    {
      var req := all[i];
      FilterSnoc(all[..i], req, p);
      assert all[..i + 1] == all[..i] + [req];
      var target := Lower(Str(requestStatus));
      var keep := true;
      if target != "" && FieldLower(req, "status") != target {
        keep := false;
      }
      if keep {
        keep := MatchesFilters(req, filters);
      }
      if keep && !QueryPasses(req, q) {
        keep := false;
      }
      if keep {
        matched := matched + [req];
      }
      i := i + 1;
    }
    assert all[..|all|] == all;
  }

  /**
   * `SearchPrevRequestController.searchRequest`: missing dicts are empty and
   * a falsy status means 'Completed'.
   */
  method SearchPrevious(requestStatus: Value, filterCriteria: Arg, data: Arg, loaded: Option<seq<Record>>)
    returns (res: Outcome<seq<Record>>)
    ensures data.OtherArg? || filterCriteria.OtherArg? ==> res == Err(NotDicts)
    ensures !data.OtherArg? && !filterCriteria.OtherArg? && loaded.None? ==> res == Err(NoLoader)
    ensures !data.OtherArg? && !filterCriteria.OtherArg? && loaded.Some? ==>
      var d := if data.DictArg? then data.d else map[];
      var f := if filterCriteria.DictArg? then filterCriteria.d else map[];
      var st := if Truthy(requestStatus) then requestStatus else VStr("Completed");
      res == Ok(Filter(loaded.value, PreviousMatcher(st, f, QueryOf(d))))
  {
    var d: Record := if data.DictArg? then data.d else map[];
    var f: Record := if filterCriteria.DictArg? then filterCriteria.d else map[];
    if data.OtherArg? || filterCriteria.OtherArg? {
      return Err(NotDicts);
    }
    var st := if Truthy(requestStatus) then requestStatus else VStr("Completed");
    if loaded.None? {
      return Err(NoLoader);
    }
    var m := EntitySearchPrevious(st, f, d, loaded.value);
    res := Ok(m);
  }

  /** With the default status every request found is completed, in any letter case. */
  lemma DefaultFindsCompleted(all: seq<Record>, filters: Record, q: Query)
    ensures forall r :: r in Filter(all, PreviousMatcher(VStr("Completed"), filters, q)) ==>
      r in all && FieldLower(r, "status") == "completed"
  {
    assert Lower("Completed") == "completed";
    FoundHaveStatus(all, VStr("Completed"), filters, q);
  }

  /** Under a non-blank status every request found has that status, lower-cased. */
  lemma FoundHaveStatus(all: seq<Record>, requestStatus: Value, filters: Record, q: Query)
    requires Lower(Str(requestStatus)) != ""
    ensures forall r :: r in Filter(all, PreviousMatcher(requestStatus, filters, q)) ==>
      r in all && FieldLower(r, "status") == Lower(Str(requestStatus))
  {
    var p := PreviousMatcher(requestStatus, filters, q);
    FilterProperties(all, p);
    forall r | r in Filter(all, p) ensures r in all && FieldLower(r, "status") == Lower(Str(requestStatus)) {
      assert p(r);
    }
  }

  /** With no filter and no query, the search is the status test alone. */
  lemma StatusOnly(all: seq<Record>, requestStatus: Value)
    ensures Filter(all, PreviousMatcher(requestStatus, map[], QueryOf(map[]))) ==
      Filter(all, r => StatusPasses(r, requestStatus))
  {
    FilterSame(all, PreviousMatcher(requestStatus, map[], QueryOf(map[])), r => StatusPasses(r, requestStatus));
  }

  /** A str filter is a substring test and ignores case; any other filter is exact. */
  lemma FilterKinds(req: Record, key: string, s: string, n: int)
    ensures FiltersPass(req, map[key := VStr(s)]) <==>
      Contains(Lower(Str(Or(Get(req, key), VStr("")))), Lower(s))
    ensures FiltersPass(req, map[key := VStr(Upper(s))]) == FiltersPass(req, map[key := VStr(s)])
    ensures FiltersPass(req, map[key := VInt(n)]) <==> PyEq(Get(req, key), VInt(n))
  {
    LowerOfUpper(s);
    assert key in map[key := VStr(s)];
    assert key in map[key := VStr(Upper(s))];
    assert key in map[key := VInt(n)];
  }
}
