/**
 * The shortlist count of a request (UserStory28): a stored count under
 * 'shortlistCount' or 'shortlist_count', else the number of people in the
 * first truthy shortlist owner field, read with int(); a rejected value is 0.
 */
module ShortlistCount {
  import opened PyValue
  import opened Seqs
  import ViewRequest
  import SaveShortlist
  import Shortlist

  const IdRequired := "Error: Request ID is required."
  const NoLoader := "Error: load_requests function not provided."

  predicate NonBlank(v: string) { !Blank(v) }

  /** `len([v for v in s.split(',') if v.strip()])` */
  function CountNames(s: string): nat {
    |Filter(Split(s, ','), NonBlank)|
  }

  /** The count derived from the owner field when no stored count exists. */
  function OwnersCount(r: Record): Value {
    var owners := Or(Or(Get(r, "shortlisted_by"), Get(r, "shortlist")), Get(r, "favorites"));
    if owners.VList? then VInt(|owners.items|)
    else if owners.VStr? && !Blank(owners.s) then VInt(CountNames(owners.s))
    else VInt(0)
  }

  function RawShortlistCount(r: Record): Value {
    if Get(r, "shortlistCount") != VNone then Get(r, "shortlistCount")
    else if Get(r, "shortlist_count") != VNone then Get(r, "shortlist_count")
    else OwnersCount(r)
  }

  /** `int(raw_value)`, with TypeError and ValueError read as 0. */
  function ShortlistCountOf(r: Record): int {
    match PyInt(RawShortlistCount(r))
    case Some(n) => n
    case None => 0
  }

  /** `Request.showShortlistCount`: the first record whose id matches decides. */
  method EntityShowShortlistCount(requestId: Value, loaded: Option<seq<Record>>) returns (res: Outcome<int>)
    ensures loaded.None? ==> res == Err(NoLoader)
    ensures loaded.Some? ==>
      match FirstIndex(loaded.value, ViewRequest.Matcher(requestId))
      case None => res == Err(ViewRequest.NotFound(requestId))
      case Some(k) => res == Ok(ShortlistCountOf(loaded.value[k]))
  {
    if loaded.None? {
      return Err(NoLoader);
    }
    var k := ViewRequest.FindRequest(loaded.value, requestId);
    if k.None? {
      return Err(ViewRequest.NotFound(requestId));
    }
    var req := loaded.value[k.value];
    var raw := Get(req, "shortlistCount");
    if raw == VNone {
      raw := Get(req, "shortlist_count");
    }
    if raw == VNone {
      raw := OwnersCount(req);
    }
    var count := 0;
    var parsed := PyInt(raw);
    if parsed.Some? {
      count := parsed.value;
    }
    res := Ok(count);
  }

  /** `ShortlistCountController.showShortlistCount` */
  method ShowShortlistCount(requestId: Value, loaded: Option<seq<Record>>) returns (res: Outcome<int>)
    ensures ViewRequest.MissingId(requestId) ==> res == Err(IdRequired)
    ensures !ViewRequest.MissingId(requestId) && loaded.None? ==> res == Err(NoLoader)
    ensures !ViewRequest.MissingId(requestId) && loaded.Some? ==>
      match FirstIndex(loaded.value, ViewRequest.Matcher(requestId))
      case None => res == Err(ViewRequest.NotFound(requestId))
      case Some(k) => res == Ok(ShortlistCountOf(loaded.value[k]))
  {
    if ViewRequest.MissingId(requestId) {
      return Err(IdRequired);
    }
    if loaded.None? {
      return Err(NoLoader);
    }
    res := EntityShowShortlistCount(requestId, loaded);
  }

  /** Without a stored count, the count is the length of the owner list and never negative. */
  lemma DerivedCountIsLength(r: Record)
    requires Get(r, "shortlistCount") == VNone && Get(r, "shortlist_count") == VNone
    ensures ShortlistCountOf(r) >= 0
    ensures Get(r, "shortlisted_by").VList? && Truthy(Get(r, "shortlisted_by")) ==>
      ShortlistCountOf(r) == |Get(r, "shortlisted_by").items|
  {
  }

  /** Saving a request to the shortlist makes its derived count exactly 1. */
  lemma SavedRequestCountsOne(r: Record)
    requires !Shortlist.IsShortlisted(r)
    requires "shortlistCount" !in r && "shortlist_count" !in r
    ensures ShortlistCountOf(SaveShortlist.Mark(r)) == 1
  {
    SaveShortlist.MarkWritesRepOnce(r);
    SaveShortlist.MarkKeepsOthers(r);
    var m := SaveShortlist.Mark(r);
    assert "shortlistCount" != "shortlisted" && "shortlistCount" != "shortlisted_by" && "shortlistCount" != "status";
    assert "shortlist_count" != "shortlisted" && "shortlist_count" != "shortlisted_by" && "shortlist_count" != "status";
    assert "shortlistCount" !in m && "shortlist_count" !in m;
  }
}
