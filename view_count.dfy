/**
 * The view count of a request (UserStory27): the first of 'viewCount',
 * 'view_count' and 'views' that is not None, read with int(); a value int()
 * rejects reads as 0.
 */
module ViewCount {
  import opened PyValue
  import opened Seqs
  import ViewRequest

  const IdRequired := "Error: Request ID is required."
  const NoLoader := "Error: load_requests function not provided."

  /** The first of the three keys whose value is not None. */
  function RawViewCount(r: Record): Value {
    if Get(r, "viewCount") != VNone then Get(r, "viewCount")
    else if Get(r, "view_count") != VNone then Get(r, "view_count")
    else Get(r, "views")
  }

  /** `int(raw) if raw is not None else 0`, with ValueError and TypeError read as 0. */
  function ViewCountOf(r: Record): int {
    var raw := RawViewCount(r);
    if raw == VNone then 0
    else match PyInt(raw)
      case Some(n) => n
      case None => 0
  }

  /** `Request.showViewCount`: the first record whose id matches decides. */
  method EntityShowViewCount(requestId: Value, loaded: Option<seq<Record>>) returns (res: Outcome<int>)
    ensures loaded.None? ==> res == Err(NoLoader)
    ensures loaded.Some? ==>
      match FirstIndex(loaded.value, ViewRequest.Matcher(requestId))
      case None => res == Err(ViewRequest.NotFound(requestId))
      case Some(k) => res == Ok(ViewCountOf(loaded.value[k]))
  {
    if loaded.None? {
      return Err(NoLoader);
    }
    var k := ViewRequest.FindRequest(loaded.value, requestId);
    if k.None? {
      return Err(ViewRequest.NotFound(requestId));
    }
    var req := loaded.value[k.value];
    var raw := Get(req, "viewCount");
    if raw == VNone {
      raw := Get(req, "view_count");
    }
    if raw == VNone {
      raw := Get(req, "views");
    }
    var count := 0;
    if raw != VNone {
      var parsed := PyInt(raw);
      if parsed.Some? {
        count := parsed.value;
      }
    }
    res := Ok(count);
  }

  /** `ViewCountController.showViewCount` */
  method ShowViewCount(requestId: Value, loaded: Option<seq<Record>>) returns (res: Outcome<int>)
    ensures ViewRequest.MissingId(requestId) ==> res == Err(IdRequired)
    ensures !ViewRequest.MissingId(requestId) && loaded.None? ==> res == Err(NoLoader)
    ensures !ViewRequest.MissingId(requestId) && loaded.Some? ==>
      match FirstIndex(loaded.value, ViewRequest.Matcher(requestId))
      case None => res == Err(ViewRequest.NotFound(requestId))
      case Some(k) => res == Ok(ViewCountOf(loaded.value[k]))
  {
    if ViewRequest.MissingId(requestId) {
      return Err(IdRequired);
    }
    if loaded.None? {
      return Err(NoLoader);
    }
    res := EntityShowViewCount(requestId, loaded);
  }

  /**
   * Key precedence is by presence, not by validity: a 'viewCount' that int()
   * rejects reads as 0 even when 'views' holds a number; a stored count
   * written as text is read back as its number.
   */
  lemma ViewCountReading(r: Record, n: int)
    ensures Get(r, "viewCount") == VInt(n) ==> ViewCountOf(r) == n
    ensures Get(r, "viewCount") == VStr(IntToString(n)) ==> ViewCountOf(r) == n
    ensures Get(r, "viewCount") == VStr("") ==> ViewCountOf(r) == 0
    ensures Get(r, "viewCount") == VNone && Get(r, "view_count") == VNone && Get(r, "views") == VNone ==>
      ViewCountOf(r) == 0
    ensures Get(r, "viewCount") == VNone && Get(r, "view_count") == VInt(n) ==> ViewCountOf(r) == n
  {
    ParseIntToString(n);
  }
}
