/**
 * A PIN views one request (UserStory14): the controller rejects a missing id,
 * the entity finds the first record whose id matches, tolerating a "REQ-"
 * prefix, and projects it into a detail record.  The matching rule and the
 * lookup loop are shared by the other request entities.
 */
module ViewRequest {
  import opened PyValue
  import opened Seqs

  const IdRequired := "Error: Request ID is required."
  const NoLoader := "Error: load_requests function not provided."

  function NotFound(requestId: Value): string {
    "Error: Request with ID '" + Str(requestId) + "' not found."
  }

  /** `str(req.get('id', '')).strip()` */
  function RecordIdText(r: Record): string {
    Strip(Str(GetOr(r, "id", VStr(""))))
  }

  /** `not requestID or not str(requestID).strip()` */
  predicate MissingId(requestId: Value) {
    !Truthy(requestId) || Blank(Str(requestId))
  }

  /**
   * The entities' id test: the trimmed ids are equal, or equal once every
   * (case-sensitive) "REQ-" has been deleted from both.
   */
  predicate IdsMatch(reqId: string, query: string) {
    reqId == query || DeleteAll(reqId, "REQ-") == DeleteAll(query, "REQ-")
  }

  predicate MatchesQuery(r: Record, requestId: Value) {
    IdsMatch(RecordIdText(r), Strip(Str(requestId)))
  }

  function Matcher(requestId: Value): Record -> bool {
    r => MatchesQuery(r, requestId)
  }

  /** The `for req in all_requests: ... break` loop: the first matching index, if any. */
  method FindRequest(all: seq<Record>, requestId: Value) returns (k: Option<nat>)
    ensures k == FirstIndex(all, Matcher(requestId))
  {
    var i := 0;
    while i < |all|
      invariant 0 <= i <= |all|
      invariant forall j :: 0 <= j < i ==> !Matcher(requestId)(all[j])
    {
      if MatchesQuery(all[i], requestId) {
        FirstIndexAt(all, Matcher(requestId), i);
        k := Some(i);
        return;
      }
      i := i + 1;
    }
    k := None;
  }

  /** The record `all[k]` when the lookup found a non-empty dict (`if not request_found`). */
  predicate Found(all: seq<Record>, k: Option<nat>) {
    k.Some? && k.value < |all| && RecordTruthy(all[k.value])
  }

  /** `x.get(a) or x.get(b) or ''` */
  function CsrOf(r: Record): Value {
    Or(Or(Get(r, "assignee"), Get(r, "csr")), VStr(""))
  }

  /** The detail dict the entity returns, one field per key. */
  datatype RequestDetail = RequestDetail(
    id: Value, title: Value, category: Value, status: Value, description: Value, date: Value,
    time: Value, location: Value, owner: Value, assignee: Value, created: Value, csr: Value)

  function Detail(r: Record): RequestDetail {
    RequestDetail(
      Get(r, "id"),
      GetOr(r, "title", VStr("")),
      GetOr(r, "category", VStr("")),
      GetOr(r, "status", VStr("Pending")),
      GetOr(r, "description", VStr("")),
      GetOr(r, "date", VStr("")),
      GetOr(r, "time", VStr("")),
      GetOr(r, "location", VStr("")),
      GetOr(r, "owner", VStr("")),
      CsrOf(r),
      GetOr(r, "created", VStr("")),
      CsrOf(r))
  }

  /** `ViewRequestEntity.getRequestDetail`; `loaded` is None when no loader was given. */
  method EntityGetRequestDetail(requestId: Value, loaded: Option<seq<Record>>) returns (res: Outcome<RequestDetail>)
    ensures loaded.None? ==> res == Err(NoLoader)
    ensures loaded.Some? ==>
      var k := FirstIndex(loaded.value, Matcher(requestId));
      res == if Found(loaded.value, k) then Ok(Detail(loaded.value[k.value])) else Err(NotFound(requestId))
  {
    if loaded.None? {
      return Err(NoLoader);
    }
    var k := FindRequest(loaded.value, requestId);
    if !Found(loaded.value, k) {
      return Err(NotFound(requestId));
    }
    res := Ok(Detail(loaded.value[k.value]));
  }

  /** `ViewRequestController.getRequestDetail`: the id is checked before anything is loaded. */
  method GetRequestDetail(requestId: Value, loaded: Option<seq<Record>>) returns (res: Outcome<RequestDetail>)
    ensures MissingId(requestId) ==> res == Err(IdRequired)
    ensures !MissingId(requestId) && loaded.None? ==> res == Err(NoLoader)
    ensures res.Ok? ==> (
      !MissingId(requestId) && loaded.Some? &&
      exists k :: 0 <= k < |loaded.value| && MatchesQuery(loaded.value[k], requestId) &&
        (forall j :: 0 <= j < k ==> !MatchesQuery(loaded.value[j], requestId)) &&
        res.value == Detail(loaded.value[k]))
    ensures !MissingId(requestId) && loaded.Some? &&
      (forall j :: 0 <= j < |loaded.value| ==> !MatchesQuery(loaded.value[j], requestId))
      ==> res == Err(NotFound(requestId))
    ensures !MissingId(requestId) && loaded.Some? ==>
      var k := FirstIndex(loaded.value, Matcher(requestId));
      res == if Found(loaded.value, k) then Ok(Detail(loaded.value[k.value])) else Err(NotFound(requestId))
  {
    if !Truthy(requestId) || Blank(Str(requestId)) {
      return Err(IdRequired);
    }
    res := EntityGetRequestDetail(requestId, loaded);
  }

  /** The detail always carries the same person under 'assignee' and 'csr': the assignee, else the csr, else ''. */
  lemma DetailAssignee(r: Record)
    ensures Detail(r).assignee == Detail(r).csr
    ensures Truthy(Get(r, "assignee")) ==> Detail(r).csr == r["assignee"]
    ensures !Truthy(Get(r, "assignee")) && Truthy(Get(r, "csr")) ==> Detail(r).csr == r["csr"]
    ensures !Truthy(Get(r, "assignee")) && !Truthy(Get(r, "csr")) ==> Detail(r).csr == VStr("")
  {
  }

  /** A missing status shows as 'Pending' and a missing text field as ''; present fields are copied. */
  lemma DetailDefaults(r: Record)
    ensures "status" !in r ==> Detail(r).status == VStr("Pending")
    ensures "title" !in r ==> Detail(r).title == VStr("")
    ensures "time" !in r ==> Detail(r).time == VStr("")
    ensures "owner" !in r ==> Detail(r).owner == VStr("")
    ensures "status" in r ==> Detail(r).status == r["status"]
    ensures "title" in r ==> Detail(r).title == r["title"]
  {
  }

  /** The id test is case-sensitive and deletes every "REQ-", not only a leading one. */
  lemma IdsMatchExamples()
    ensures IdsMatch("REQ-7", "7") && IdsMatch("7", "REQ-7")
    ensures IdsMatch("REQ-REQ-7", "7")
    ensures !IdsMatch("req-7", "7")
  {
    assert DeleteAll("REQ-7", "REQ-") == "7";
    assert DeleteAll("REQ-REQ-7", "REQ-") == DeleteAll("REQ-7", "REQ-");
    assert DeleteAll("req-7", "REQ-") == "req-7";
  }

  /** Looking a record up by its own id finds it or an earlier record. */
  lemma LookupFindsOwnId(all: seq<Record>, i: nat)
    requires i < |all|
    ensures FirstIndex(all, Matcher(VStr(RecordIdText(all[i])))).Some?
    ensures FirstIndex(all, Matcher(VStr(RecordIdText(all[i])))).value <= i
  {
    StripIdempotent(Str(GetOr(all[i], "id", VStr(""))));
    assert MatchesQuery(all[i], VStr(RecordIdText(all[i])));
  }
}
