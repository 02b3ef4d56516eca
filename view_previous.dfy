/**
 * A PIN views one previous request (UserStory30): the first record whose id
 * matches is shown when it is in the requested status (default 'Completed');
 * a falsy status accepts any.
 */
module ViewPrevious {
  import opened PyValue
  import opened Seqs
  import ViewRequest

  const IdRequired := "Error: Request ID is required."
  const NoLoader := "Error: load_requests function not provided."

  function WrongStatus(requestId: Value, requestStatus: Value): string {
    "Error: Request '" + Str(requestId) + "' is not in requested status '" + Str(requestStatus) + "'."
  }

  /** The dict returned for a previous request. */
  datatype PreviousDetail = PreviousDetail(
    id: string, title: Value, category: Value, status: Value, description: Value, date: Value,
    location: Value, owner: Value, csrRepInCharge: Value)

  function Detail(r: Record): PreviousDetail {
    PreviousDetail(
      ViewRequest.RecordIdText(r),
      GetOr(r, "title", VStr("")), GetOr(r, "category", VStr("")), GetOr(r, "status", VStr("")),
      GetOr(r, "description", VStr("")), GetOr(r, "date", VStr("")), GetOr(r, "location", VStr("")),
      GetOr(r, "owner", VStr("")),
      Or(Or(Or(Get(r, "assignee"), Get(r, "csr")), Get(r, "CSRRepInCharge")), VStr("")))
  }

  /** The CSR in charge is the assignee, else the csr, else the `CSRRepInCharge` field, else ''. */
  lemma DetailInCharge(r: Record)
    ensures Truthy(Get(r, "assignee")) ==> Detail(r).csrRepInCharge == r["assignee"]
    ensures !Truthy(Get(r, "assignee")) && Truthy(Get(r, "csr")) ==> Detail(r).csrRepInCharge == r["csr"]
    ensures !Truthy(Get(r, "assignee")) && !Truthy(Get(r, "csr")) && Truthy(Get(r, "CSRRepInCharge")) ==>
      Detail(r).csrRepInCharge == r["CSRRepInCharge"]
    ensures !Truthy(Get(r, "assignee")) && !Truthy(Get(r, "csr")) && !Truthy(Get(r, "CSRRepInCharge")) ==>
      Detail(r).csrRepInCharge == VStr("")
  {
  }

  /** `requestStatus and status != str(requestStatus).lower()` */
  predicate StatusMismatch(r: Record, requestStatus: Value) {
    Truthy(requestStatus) && Lower(Str(GetOr(r, "status", VStr("")))) != Lower(Str(requestStatus))
  }

  /**
   * `Request.getRequestDetail` (previous requests).  The first match decides,
   * even an empty record: there is no "not found" test on what was matched.
   */
  method EntityGetPrevious(requestId: Value, requestStatus: Value, loaded: Option<seq<Record>>)
    returns (res: Outcome<PreviousDetail>)
    ensures loaded.None? ==> res == Err(NoLoader)
    ensures loaded.Some? ==>
      var all := loaded.value;
      match FirstIndex(all, ViewRequest.Matcher(requestId))
      case None => res == Err(ViewRequest.NotFound(requestId))
      case Some(k) =>
        res == if StatusMismatch(all[k], requestStatus) then Err(WrongStatus(requestId, requestStatus))
               else Ok(Detail(all[k]))
  {
    if loaded.None? {
      return Err(NoLoader);
    }
    var all := loaded.value;
    var k := ViewRequest.FindRequest(all, requestId);
    if k.None? {
      return Err(ViewRequest.NotFound(requestId));
    }
    var req := all[k.value];
    var status := Lower(Str(GetOr(req, "status", VStr(""))));
    if Truthy(requestStatus) && status != Lower(Str(requestStatus)) {
      return Err(WrongStatus(requestId, requestStatus));
    }
    res := Ok(Detail(req));
  }

  /** `ViewPrevRequestController.getRequestDetail` */
  method GetPrevious(requestId: Value, requestStatus: Value, loaded: Option<seq<Record>>)
    returns (res: Outcome<PreviousDetail>)
    ensures ViewRequest.MissingId(requestId) ==> res == Err(IdRequired)
    ensures !ViewRequest.MissingId(requestId) && loaded.None? ==> res == Err(NoLoader)
    ensures res.Ok? ==> (
      loaded.Some? && !ViewRequest.MissingId(requestId) &&
      var k := FirstIndex(loaded.value, ViewRequest.Matcher(requestId));
      k.Some? && res.value == Detail(loaded.value[k.value]) &&
      (Truthy(requestStatus) ==> Lower(Str(res.value.status)) == Lower(Str(requestStatus))))
    ensures !ViewRequest.MissingId(requestId) && loaded.Some? && !Truthy(requestStatus) ==>
      (res.Ok? <==> FirstIndex(loaded.value, ViewRequest.Matcher(requestId)).Some?)
    ensures !ViewRequest.MissingId(requestId) && loaded.Some? ==>
      var all := loaded.value;
      match FirstIndex(all, ViewRequest.Matcher(requestId))
      case None => res == Err(ViewRequest.NotFound(requestId))
      case Some(k) =>
        res == if StatusMismatch(all[k], requestStatus) then Err(WrongStatus(requestId, requestStatus))
               else Ok(Detail(all[k]))
  {
    if ViewRequest.MissingId(requestId) {
      return Err(IdRequired);
    }
    if loaded.None? {
      return Err(NoLoader);
    }
    res := EntityGetPrevious(requestId, requestStatus, loaded);
  }

  /**
   * Deleting "REQ-" from both sides means the query "REQ-" matches a record
   * without an id, which is then shown with an empty id.
   */
  lemma PrefixOnlyQueryMatchesIdless(r: Record)
    requires "id" !in r
    ensures !ViewRequest.MissingId(VStr("REQ-"))
    ensures ViewRequest.MatchesQuery(r, VStr("REQ-"))
    ensures Detail(r).id == ""
  {
    NoSpaceStrips("REQ-");
    NoSpaceStrips("");
    assert DeleteAll("REQ-", "REQ-") == "";
  }
}
