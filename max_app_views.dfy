/**
 * The combined service's request views (Max_app.py): the persisted view
 * counter behind `POST /api/requests/<id>/views`, and the PIN-only routes
 * that list, show and search the logged-in PIN user's own requests.  The
 * request list is what `load_requests` returned; what the route saves is an
 * out-parameter (None when it saves nothing).
 */
module MaxAppViews {
  import opened PyValue
  import opened Seqs
  import opened MaxAppIds

  const NotAuthenticated := "Not authenticated"
  const NotFound := "Not found"

  // ------------------------------------------------------------------ view counter

  /** `int(r.get('viewCount', 0) or 0)`; None where `int()` raises. */
  function StoredViews(r: Record): Option<int> {
    PyInt(Or(GetOr(r, "viewCount", VInt(0)), VInt(0)))
  }

  /** `_canon_req_id(r.get('id')) == cid` */
  predicate SameRequest(r: Record, cid: string) {
    CanonReqId(Get(r, "id")) == cid
  }

  function SameRequestOn(cid: string): Record -> bool {
    (r: Record) => SameRequest(r, cid)
  }

  /** The record after the counter has been set to `count` at time `now`. */
  function Bumped(r: Record, count: int, now: Value): Record {
    r["viewCount" := VInt(count)]["lastViewedAt" := now]
  }

  /** What `_increment_view_count` returns, and the list it saves (None: no save). */
  datatype Bump = Bump(result: Outcome<int>, saved: Option<seq<Record>>)

  /** The specification of `_increment_view_count(request_id, by)`. */
  function ViewBump(reqs: seq<Record>, requestId: string, step: int, now: Value): Bump {
    BumpFirst(reqs, SameRequestOn(CanonReqId(VStr(requestId))), step, now)
  }

  /**
   * The increment of the first record `p` accepts.  The lemmas below are
   * stated for any `p`; `ViewBump` takes `p` to be "has the canonical id".
   */
  function BumpFirst(reqs: seq<Record>, p: Record -> bool, step: int, now: Value): Bump {
    match FirstIndex(reqs, p)
    case None => Bump(Ok(0), None)
    case Some(k) => BumpAt(reqs, k, step, now)
  }

  /** The increment of record `k`: `int()` of its count raises, or the count goes up by `step`. */
  function BumpAt(reqs: seq<Record>, k: nat, step: int, now: Value): Bump
    requires k < |reqs|
  {
    match StoredViews(reqs[k])
    case None => Bump(Raised, None)
    case Some(c) => Bump(Ok(c + step), Some(reqs[k := Bumped(reqs[k], c + step, now)]))
  }

  /**
   * `_increment_view_count`: the scan stops at the first record whose
   * canonical id is the requested one; `now` is the `_now_iso()` stamp.
   */
  method IncrementViewCount(reqs: seq<Record>, requestId: string, step: int, now: Value)
    returns (result: Outcome<int>, saved: Option<seq<Record>>)
    ensures Bump(result, saved) == ViewBump(reqs, requestId, step, now)
  {
    var cid := CanonReqId(VStr(requestId));
    var found := FindRequest(reqs, cid);
    BumpFirstFound(reqs, SameRequestOn(cid), step, now, found);
    if found.None? {
      return Ok(0), None;
    }
    result, saved := BumpRecord(reqs, found.value, step, now);
  }

  /** The body of the loop at the matching record: read the count, write it back raised, stamp the time. */
  method BumpRecord(reqs: seq<Record>, k: nat, step: int, now: Value)
    returns (result: Outcome<int>, saved: Option<seq<Record>>)
    requires k < |reqs|
    ensures Bump(result, saved) == BumpAt(reqs, k, step, now)
  {
    var count := StoredViews(reqs[k]);
    BumpAtCases(reqs, k, step, now);
    if count.None? {
      return Raised, None;
    }
    var newVal := count.value + step;
    result, saved := Ok(newVal), Some(reqs[k := Bumped(reqs[k], newVal, now)]);
  }

  lemma BumpFirstFound(reqs: seq<Record>, p: Record -> bool, step: int, now: Value, found: Option<nat>)
    requires found == FirstIndex(reqs, p)
    ensures found.None? ==> BumpFirst(reqs, p, step, now) == Bump(Ok(0), None)
    ensures found.Some? ==> found.value < |reqs| && BumpFirst(reqs, p, step, now) == BumpAt(reqs, found.value, step, now)
  {
  }

  lemma BumpAtCases(reqs: seq<Record>, k: nat, step: int, now: Value)
    requires k < |reqs|
    ensures StoredViews(reqs[k]).None? ==> BumpAt(reqs, k, step, now) == Bump(Raised, None)
    ensures StoredViews(reqs[k]).Some? ==>
      var c := StoredViews(reqs[k]).value;
      BumpAt(reqs, k, step, now) == Bump(Ok(c + step), Some(reqs[k := Bumped(reqs[k], c + step, now)]))
  {
  }

  /** The loop of `_increment_view_count`: it stops at the first record with the canonical id. */
  method FindRequest(reqs: seq<Record>, cid: string) returns (found: Option<nat>)
    ensures found == FirstIndex(reqs, SameRequestOn(cid))
  {
    var i := 0;
    while i < |reqs|
      invariant 0 <= i <= |reqs|
      invariant forall j :: 0 <= j < i ==> !SameRequestOn(cid)(reqs[j])
    {
      if SameRequest(reqs[i], cid) {
        FirstIndexAt(reqs, SameRequestOn(cid), i);
        return Some(i);
      }
      i := i + 1;
    }
    found := None;
  }

  /** What `Bumped` writes and what it keeps. */
  lemma BumpedRecord(r: Record, count: int, now: Value)
    ensures "viewCount" in Bumped(r, count, now) && Bumped(r, count, now)["viewCount"] == VInt(count)
    ensures "lastViewedAt" in Bumped(r, count, now) && Bumped(r, count, now)["lastViewedAt"] == now
    ensures forall key :: key in r && key != "viewCount" && key != "lastViewedAt" ==>
      key in Bumped(r, count, now) && Bumped(r, count, now)[key] == r[key]
    ensures Get(Bumped(r, count, now), "id") == Get(r, "id")
  {
    assert "id" != "viewCount" && "id" != "lastViewedAt";
  }

  /** After the increment the count reads back as the value written. */
  lemma BumpedViews(r: Record, count: int, now: Value)
    ensures StoredViews(Bumped(r, count, now)) == Some(count)
  {
    var x := Bumped(r, count, now);
    assert x["viewCount"] == VInt(count);
  }

  /** An id no record has answers 0 and saves nothing. */
  lemma ViewBumpUnknown(reqs: seq<Record>, p: Record -> bool, step: int, now: Value)
    requires forall j :: 0 <= j < |reqs| ==> !p(reqs[j])
    ensures BumpFirst(reqs, p, step, now) == Bump(Ok(0), None)
  {
  }

  /**
   * When the increment saves, the first record with the id gets exactly
   * `step` more views and the time stamp, every other key and every other
   * record stays as it was, and the new count is what is returned.
   */
  lemma ViewBumpSaved(reqs: seq<Record>, p: Record -> bool, step: int, now: Value)
    requires BumpFirst(reqs, p, step, now).saved.Some?
    ensures var k := FirstIndex(reqs, p).value;
      var after := BumpFirst(reqs, p, step, now).saved.value;
      p(reqs[k]) && StoredViews(reqs[k]).Some? &&
      BumpFirst(reqs, p, step, now).result == Ok(StoredViews(reqs[k]).value + step) &&
      |after| == |reqs| &&
      after[k]["viewCount"] == VInt(StoredViews(reqs[k]).value + step) &&
      after[k]["lastViewedAt"] == now &&
      (forall key :: key in reqs[k] && key != "viewCount" && key != "lastViewedAt" ==>
        key in after[k] && after[k][key] == reqs[k][key]) &&
      (forall j :: 0 <= j < |reqs| && j != k ==> after[j] == reqs[j])
  {
    var k := FirstIndex(reqs, p).value;
    var c := StoredViews(reqs[k]).value;
    BumpedRecord(reqs[k], c + step, now);
  }

  /** Nothing is saved only when no record has the id (answer 0) or its count cannot be read (raise). */
  lemma ViewBumpNoSave(reqs: seq<Record>, p: Record -> bool, step: int, now: Value)
    requires BumpFirst(reqs, p, step, now).saved.None?
    ensures match FirstIndex(reqs, p)
      case None => BumpFirst(reqs, p, step, now).result == Ok(0)
      case Some(k) => StoredViews(reqs[k]).None? && BumpFirst(reqs, p, step, now).result == Raised
  {
  }

  /** A missing or falsy count counts as 0, and a stored int is read as itself. */
  lemma StoredViewsDefaults(r: Record)
    ensures !Truthy(GetOr(r, "viewCount", VInt(0))) ==> StoredViews(r) == Some(0)
    ensures "viewCount" !in r ==> StoredViews(r) == Some(0)
    ensures "viewCount" in r && r["viewCount"].VInt? ==> StoredViews(r) == Some(r["viewCount"].i)
  {
  }

  /** `p` looks only at what the increment keeps. */
  ghost predicate KeepsMatch(p: Record -> bool) {
    forall r: Record, c: int, t: Value {:trigger Bumped(r, c, t)} :: p(Bumped(r, c, t)) == p(r)
  }

  /**
   * Two increments in a row add up: when `p` looks only at what the
   * increment keeps (as "has the canonical id" does, by `KeptByBump`), the
   * second increment finds the record the first one saved.
   */
  lemma ViewBumpsAdd(reqs: seq<Record>, p: Record -> bool, a: int, b: int, t1: Value, t2: Value)
    requires BumpFirst(reqs, p, a, t1).saved.Some?
    requires KeepsMatch(p)
    ensures var first := BumpFirst(reqs, p, a, t1);
      BumpFirst(first.saved.value, p, b, t2).result == Ok(first.result.value + b)
  {
    var k := FirstIndex(reqs, p).value;
    var c := StoredViews(reqs[k]).value;
    var x := Bumped(reqs[k], c + a, t1);
    var after := reqs[k := x];
    BumpFirstFound(reqs, p, a, t1, Some(k));
    BumpAtCases(reqs, k, a, t1);
    assert BumpFirst(reqs, p, a, t1) == Bump(Ok(c + a), Some(after));
    assert p(x);
    FirstIndexUpdate(reqs, p, k, x);
    SecondBump(after, p, k, c + a, b, t2);
  }

  lemma SecondBump(after: seq<Record>, p: Record -> bool, k: nat, c: int, b: int, t2: Value)
    requires FirstIndex(after, p) == Some(k)
    requires StoredViews(after[k]) == Some(c)
    ensures BumpFirst(after, p, b, t2).result == Ok(c + b)
  {
    BumpFirstFound(after, p, b, t2, Some(k));
  }

  /** The increment keeps the record's id, so it keeps whether the record has the canonical id. */
  lemma KeptByBump(cid: string)
    ensures KeepsMatch(SameRequestOn(cid))
  {
    forall r: Record, c: int, t: Value ensures SameRequestOn(cid)(Bumped(r, c, t)) == SameRequestOn(cid)(r) {
      BumpedRecord(r, c, t);
    }
  }

  /** Two view-count increments of the same request add up. */
  lemma ViewBumpsAddUp(reqs: seq<Record>, cid: string, a: int, b: int, t1: Value, t2: Value)
    requires BumpFirst(reqs, SameRequestOn(cid), a, t1).saved.Some?
    ensures var first := BumpFirst(reqs, SameRequestOn(cid), a, t1);
      BumpFirst(first.saved.value, SameRequestOn(cid), b, t2).result == Ok(first.result.value + b)
  {
    KeptByBump(cid);
    ViewBumpsAdd(reqs, SameRequestOn(cid), a, b, t1, t2);
  }

  // ------------------------------------------------------------------ PIN routes

  /** `_owns(r, uname)` holds. */
  predicate OwnedBy(r: Record, uname: string) {
    Owns(r, uname) == Some(true)
  }

  function OwnedOn(uname: string): Record -> bool {
    (r: Record) => OwnedBy(r, uname)
  }

  /** Some record's owner is a truthy non-string, on which `_owns` raises. */
  predicate OwnerUnreadable(rs: seq<Record>, uname: string) {
    exists j :: 0 <= j < |rs| && Owns(rs[j], uname).None?
  }

  /** The row `pin_list_my_requests` shows for a request. */
  function PinRow(r: Record): Record {
    map[
      "id" := Get(r, "id"),
      "title" := Get(r, "title"),
      "category" := Get(r, "category"),
      "date" := Get(r, "date"),
      "created" := GetOr(r, "created", Get(r, "date")),
      "status" := GetOr(r, "status", VStr("Pending")),
      "owner" := Get(r, "owner"),
      "description" := GetOr(r, "description", VStr("")),
      "location" := GetOr(r, "location", VStr(""))
    ]
  }

  /** The specification of `pin_list_my_requests`. */
  function PinList(reqs: seq<Record>, s: Session): Outcome<seq<Record>> {
    var u := PinIdentity(s);
    if u == "" then Err(NotAuthenticated)
    else if OwnerUnreadable(reqs, u) then Raised
    else Ok(MapSeq(Filter(reqs, OwnedOn(u)), PinRow))
  }

  /** `pin_list_my_requests`: the loop that keeps the caller's own requests, in list order. */
  method PinListMyRequests(reqs: seq<Record>, s: Session) returns (res: Outcome<seq<Record>>)
    ensures res == PinList(reqs, s)
  {
    var uname := PinIdentity(s);
    if uname == "" {
      return Err(NotAuthenticated);
    }
    var rows: seq<Record> := [];
    var i := 0;
    while i < |reqs|
      invariant 0 <= i <= |reqs|
      invariant !OwnerUnreadable(reqs[..i], uname)
      invariant rows == MapSeq(Filter(reqs[..i], OwnedOn(uname)), PinRow)
    {
      var r := reqs[i];
      var owns := Owns(r, uname);
      if owns.None? {
        UnreadableExtends(reqs, i, uname);
        return Raised;
      }
      PinListStep(reqs, i, uname, rows);
      if owns.value {
        rows := rows + [PinRow(r)];
      }
      i := i + 1;
    }
    assert reqs[..|reqs|] == reqs;
    res := Ok(rows);
  }

  /** One turn of the listing loop: an owned request adds its row, and nothing else does. */
  lemma PinListStep(reqs: seq<Record>, i: nat, uname: string, rows: seq<Record>)
    requires i < |reqs| && Owns(reqs[i], uname).Some?
    requires !OwnerUnreadable(reqs[..i], uname)
    requires rows == MapSeq(Filter(reqs[..i], OwnedOn(uname)), PinRow)
    ensures !OwnerUnreadable(reqs[..i + 1], uname)
    ensures (if OwnedBy(reqs[i], uname) then rows + [PinRow(reqs[i])] else rows) ==
      MapSeq(Filter(reqs[..i + 1], OwnedOn(uname)), PinRow)
  {
    var r := reqs[i];
    var pre := reqs[..i];
    var p := OwnedOn(uname);
    assert reqs[..i + 1] == pre + [r];
    FilterSnoc(pre, r, p);
    assert p(r) == OwnedBy(r, uname);
    if OwnedBy(r, uname) {
      MapSnoc(Filter(pre, p), r, PinRow);
    } else {
      assert Filter(reqs[..i + 1], p) == Filter(pre, p);
    }
    var next := reqs[..i + 1];
    forall j | 0 <= j < |next| ensures Owns(next[j], uname).Some? {
      if j < i {
        assert next[j] == pre[j];
        assert Owns(pre[j], uname).Some?;
      }
    }
  }

  lemma UnreadableExtends(reqs: seq<Record>, i: nat, uname: string)
    requires i < |reqs| && Owns(reqs[i], uname).None?
    ensures OwnerUnreadable(reqs, uname)
  {
  }

  /**
   * Without a PIN identity the list is refused; otherwise the rows are
   * exactly the projections of the caller's own requests, one per request,
   * in list order, and there is no row for anyone else's request.
   */
  lemma PinListOnlyOwn(reqs: seq<Record>, s: Session)
    ensures PinList(reqs, s) == Err(NotAuthenticated) <==> PinIdentity(s) == ""
    ensures PinList(reqs, s).Ok? <==> PinIdentity(s) != "" && !OwnerUnreadable(reqs, PinIdentity(s))
    ensures PinList(reqs, s).Ok? ==>
      var rows := PinList(reqs, s).value;
      var own := Filter(reqs, OwnedOn(PinIdentity(s)));
      |rows| == |own| && IsSubseq(own, reqs) &&
      (forall r :: r in own <==> r in reqs && OwnedBy(r, PinIdentity(s))) &&
      (forall i :: 0 <= i < |rows| ==> rows[i] == PinRow(own[i]))
  {
    var u := PinIdentity(s);
    if u != "" && !OwnerUnreadable(reqs, u) {
      var own := Filter(reqs, OwnedOn(u));
      FilterProperties(reqs, OwnedOn(u));
      MapIndex(own, PinRow);
    }
  }

  /** The specification of `pin_search_my_requests`, given the search page's answer. */
  function PinSearch(found: Outcome<seq<Record>>, s: Session): Outcome<seq<Record>> {
    var u := PinIdentity(s);
    if u == "" then Err(NotAuthenticated)
    else
      match found
      case Err(m) => Err(m)
      case Raised => Raised
      case Ok(rs) => if OwnerUnreadable(rs, u) then Raised else Ok(Filter(rs, OwnedOn(u)))
  }

  /**
   * The search never shows another user's request: the rows are those the
   * search found that the caller owns, in the search's order, and a search
   * error is passed on.
   */
  lemma PinSearchOnlyOwn(found: Outcome<seq<Record>>, s: Session)
    ensures PinIdentity(s) == "" ==> PinSearch(found, s) == Err(NotAuthenticated)
    ensures PinIdentity(s) != "" && found.Err? ==> PinSearch(found, s) == found
    ensures PinSearch(found, s).Ok? ==>
      found.Ok? && IsSubseq(PinSearch(found, s).value, found.value) &&
      forall r :: r in PinSearch(found, s).value <==> r in found.value && OwnedBy(r, PinIdentity(s))
  {
    if PinSearch(found, s).Ok? {
      FilterProperties(found.value, OwnedOn(PinIdentity(s)));
    }
  }

  /** `str(r.get('id')) == str(request_id) or _canon_req_id(r.get('id')) == _canon_req_id(request_id)` */
  predicate DetailMatch(r: Record, requestId: string) {
    Str(Get(r, "id")) == requestId || CanonReqId(Get(r, "id")) == CanonReqId(VStr(requestId))
  }

  function DetailOn(requestId: string): Record -> bool {
    (r: Record) => DetailMatch(r, requestId)
  }

  /**
   * The specification of `pin_get_request_detail`; `shortlistCount` is the
   * UserStory28 page's answer when it is an int.
   */
  function PinDetail(reqs: seq<Record>, requestId: string, s: Session, shortlistCount: Option<int>): Outcome<Record> {
    var u := PinIdentity(s);
    if u == "" then Err(NotAuthenticated)
    else
      match FirstIndex(reqs, DetailOn(requestId))
      case None => Err(NotFound)
      case Some(k) =>
        var rec := reqs[k];
        if !RecordTruthy(rec) then Err(NotFound)
        else
          match Owns(rec, u)
          case None => Raised
          case Some(false) => Err(NotFound)
          case Some(true) =>
            match StoredViews(rec)
            case None => Raised
            case Some(v) =>
              var withViews := rec["viewCount" := VInt(v)];
              Ok(if shortlistCount.Some? then withViews["shortlistCount" := VInt(shortlistCount.value)] else withViews)
  }

  /** The detail record: the stored one with the count read as an int and, when given, the shortlist count. */
  lemma DetailRecord(rec: Record, v: int, shortlistCount: Option<int>)
    ensures var withViews := rec["viewCount" := VInt(v)];
      var d := if shortlistCount.Some? then withViews["shortlistCount" := VInt(shortlistCount.value)] else withViews;
      "viewCount" in d && d["viewCount"] == VInt(v) &&
      (shortlistCount.Some? ==> "shortlistCount" in d && d["shortlistCount"] == VInt(shortlistCount.value)) &&
      (forall key :: key in rec && key != "viewCount" && key != "shortlistCount" ==> key in d && d[key] == rec[key])
  {
    assert "viewCount" != "shortlistCount";
  }

  /**
   * A detail is shown only for the caller's own request: it is the first
   * matching record, with its view count read as an int, the shortlist count
   * when there is one, and every other field as stored.
   */
  lemma PinDetailShown(reqs: seq<Record>, requestId: string, s: Session, shortlistCount: Option<int>)
    requires PinDetail(reqs, requestId, s, shortlistCount).Ok?
    ensures var k := FirstIndex(reqs, DetailOn(requestId)).value;
      var d := PinDetail(reqs, requestId, s, shortlistCount).value;
      PinIdentity(s) != "" && DetailMatch(reqs[k], requestId) && OwnedBy(reqs[k], PinIdentity(s)) &&
      StoredViews(reqs[k]).Some? && d["viewCount"] == VInt(StoredViews(reqs[k]).value) &&
      (shortlistCount.Some? ==> d["shortlistCount"] == VInt(shortlistCount.value)) &&
      (forall key :: key in reqs[k] && key != "viewCount" && key != "shortlistCount" ==>
        key in d && d[key] == reqs[k][key])
  {
    var k := FirstIndex(reqs, DetailOn(requestId)).value;
    assert DetailOn(requestId)(reqs[k]);
    DetailRecord(reqs[k], StoredViews(reqs[k]).value, shortlistCount);
  }

  /** Someone else's request is "Not found", exactly as an unknown one. */
  lemma PinDetailOthersHidden(reqs: seq<Record>, requestId: string, s: Session, shortlistCount: Option<int>, k: nat)
    requires PinIdentity(s) != ""
    requires FirstIndex(reqs, DetailOn(requestId)) == Some(k)
    requires Owns(reqs[k], PinIdentity(s)) == Some(false)
    ensures PinDetail(reqs, requestId, s, shortlistCount) == Err(NotFound)
  {
  }

  /** An id no record matches is "Not found". */
  lemma PinDetailUnknown(reqs: seq<Record>, requestId: string, s: Session, shortlistCount: Option<int>)
    requires PinIdentity(s) != ""
    requires forall j :: 0 <= j < |reqs| ==> !DetailMatch(reqs[j], requestId)
    ensures PinDetail(reqs, requestId, s, shortlistCount) == Err(NotFound)
  {
    assert forall j :: 0 <= j < |reqs| ==> !DetailOn(requestId)(reqs[j]);
  }
}
