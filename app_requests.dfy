/**
 * The CSR routes of the JSON service (app.py) over the request file:
 * assign a request to the caller and unassign it, refusing when someone
 * else holds it; the CSR view of a request and the CSR search; and the
 * flat shortlist of request ids, save and delete.  Each route takes what
 * `load_json` read and answers with its reply and what it saves; the
 * `now_iso()` stamp is the parameter `now`, one stamp per call.
 */
module AppRequests {
  import opened PyValue
  import opened Seqs
  import opened MaxAppIds
  import AppIds

  // ------------------------------------------------------------------ finding a request

  /** `int(r.get("id", 0)) == num` */
  predicate IdIs(r: Record, num: int) {
    PyInt(GetOr(r, "id", VInt(0))) == Some(num)
  }

  /** `int(r.get("id", 0))` raises. */
  predicate IdRaises(r: Record) {
    PyInt(GetOr(r, "id", VInt(0))).None?
  }

  /** Where the generator of `next(...)` stops: at the record with the id or at one whose id raises. */
  function StopsAt(num: int): Record -> bool {
    (r: Record) => IdRaises(r) || IdIs(r, num)
  }

  datatype Scan = Found(k: nat) | Absent | ScanRaised

  /** `next((i for i, r in enumerate(reqs) if int(r.get("id", 0)) == int(num)), -1)` */
  function ScanId(reqs: seq<Record>, num: int): Scan {
    match FirstIndex(reqs, StopsAt(num))
    case None => Absent
    case Some(k) => if IdRaises(reqs[k]) then ScanRaised else Found(k)
  }

  method FindById(reqs: seq<Record>, num: int) returns (scan: Scan)
    ensures scan == ScanId(reqs, num)
  {
    var stop := FindFirst(reqs, StopsAt(num));
    if stop.None? {
      return Absent;
    }
    scan := if IdRaises(reqs[stop.value]) then ScanRaised else Found(stop.value);
  }

  /**
   * The scan finds the first record whose id reads as `num` when every id
   * before it reads as an int, finds nothing when every id reads as an int
   * other than `num`, and raises otherwise.
   */
  lemma ScanIdExact(reqs: seq<Record>, num: int)
    ensures ScanId(reqs, num).Found? ==> var k := ScanId(reqs, num).k;
      k < |reqs| && IdIs(reqs[k], num) && forall j :: 0 <= j < k ==> !IdRaises(reqs[j]) && !IdIs(reqs[j], num)
    ensures ScanId(reqs, num).Absent? <==> forall j :: 0 <= j < |reqs| ==> !IdRaises(reqs[j]) && !IdIs(reqs[j], num)
    ensures ScanId(reqs, num).ScanRaised? <==>
      exists j :: 0 <= j < |reqs| && IdRaises(reqs[j]) && forall i :: 0 <= i < j ==> !IdIs(reqs[i], num)
  {
    match FirstIndex(reqs, StopsAt(num)) {
      case None =>
      case Some(k) =>
        if exists j :: 0 <= j < |reqs| && IdRaises(reqs[j]) && forall i :: 0 <= i < j ==> !IdIs(reqs[i], num) {
          var j :| 0 <= j < |reqs| && IdRaises(reqs[j]) && forall i :: 0 <= i < j ==> !IdIs(reqs[i], num);
          assert StopsAt(num)(reqs[j]);
          assert k <= j;
          if k < j {
            assert !IdIs(reqs[k], num);
          }
        }
    }
  }

  /** A record changed in place but for its id is still the one the scan finds. */
  lemma ScanIdUpdate(reqs: seq<Record>, num: int, k: nat, x: Record)
    requires ScanId(reqs, num) == Found(k)
    requires GetOr(x, "id", VInt(0)) == GetOr(reqs[k], "id", VInt(0))
    ensures ScanId(reqs[k := x], num) == Found(k)
  {
    FirstIndexUpdate(reqs, StopsAt(num), k, x);
  }

  // ------------------------------------------------------------------ assign and unassign

  /** A CSR route's answer: `{"success": True, ...}` or `{"success": False, "message": ...}` with its status. */
  datatype Reply =
    | Assigned(assignedTo: string, assignedAt: string)
    | Unassigned
    | Refused(code: int, message: string)
    | Crash

  /** A route's reply and the request list it saves (None: no save). */
  datatype Effect = Effect(reply: Reply, saved: Option<seq<Record>>)

  const NotAuthenticated := "Not authenticated"
  const InvalidId := "Invalid id"
  const NotFound := "Not found"

  /** Where the shared checks of assign and unassign leave the route. */
  datatype Located = At(k: nat, me: string) | Halt(reply: Reply)

  /**
   * The checks assign and unassign share: a session with a role, an id that
   * reads as an int, a record with that id, and no other holder; `busy` is
   * the start of the 409 message.
   */
  function Locate(reqs: seq<Record>, s: Session, rid: string, busy: string): Located {
    var me := Caller(s, "CSR");
    if s.role == "" then Halt(Refused(401, NotAuthenticated))
    else
      match AppIds.ReqStringToInt(VStr(rid))
      case None => Halt(Refused(400, InvalidId))
      case Some(num) =>
        match ScanId(reqs, num)
        case ScanRaised => Halt(Crash)
        case Absent => Halt(Refused(404, NotFound))
        case Found(k) =>
          var current := Get(reqs[k], "assignedTo");
          if Truthy(current) && current != VStr(me) then Halt(Refused(409, busy + Str(current)))
          else At(k, me)
  }

  const AlreadyAssigned := "Already assigned to "
  const AssignedTo := "Assigned to "

  /** The request after assign: the caller, the stamp, and the status in lower case ('pending' when blank). */
  function Claimed(r: Record, me: string, now: string): Option<Record> {
    match TextOr(Get(r, "status"), "pending")
    case None => None
    case Some(st) => Some(r["assignedTo" := VStr(me)]["assignedAt" := VStr(now)]["status" := VStr(Lower(st))])
  }

  /** The request after unassign: no assignee and no stamp. */
  function Released(r: Record): Record {
    r["assignedTo" := VNone]["assignedAt" := VNone]
  }

  /** The specification of `csr_assign_request`. */
  function AssignRoute(reqs: seq<Record>, s: Session, rid: string, now: string): Effect {
    match Locate(reqs, s, rid, AlreadyAssigned)
    case Halt(reply) => Effect(reply, None)
    case At(k, me) =>
      match Claimed(reqs[k], me, now)
      case None => Effect(Crash, None)
      case Some(x) => Effect(Assigned(me, now), Some(reqs[k := x]))
  }

  /** The specification of `csr_unassign_request`. */
  function UnassignRoute(reqs: seq<Record>, s: Session, rid: string): Effect {
    match Locate(reqs, s, rid, AssignedTo)
    case Halt(reply) => Effect(reply, None)
    case At(k, me) => Effect(Unassigned, Some(reqs[k := Released(reqs[k])]))
  }

  method LocateRequest(reqs: seq<Record>, s: Session, rid: string, busy: string) returns (at: Located)
    ensures at == Locate(reqs, s, rid, busy)
  {
    var me := Caller(s, "CSR");
    if s.role == "" {
      return Halt(Refused(401, NotAuthenticated));
    }
    var num := AppIds.ReqStringToInt(VStr(rid));
    if num.None? {
      return Halt(Refused(400, InvalidId));
    }
    var scan := FindById(reqs, num.value);
    if scan.ScanRaised? {
      return Halt(Crash);
    }
    if scan.Absent? {
      return Halt(Refused(404, NotFound));
    }
    var current := Get(reqs[scan.k], "assignedTo");
    if Truthy(current) && current != VStr(me) {
      return Halt(Refused(409, busy + Str(current)));
    }
    at := At(scan.k, me);
  }

  method CsrAssignRequest(reqs: seq<Record>, s: Session, rid: string, now: string)
    returns (reply: Reply, saved: Option<seq<Record>>)
    ensures Effect(reply, saved) == AssignRoute(reqs, s, rid, now)
  {
    var at := LocateRequest(reqs, s, rid, AlreadyAssigned);
    if at.Halt? {
      return at.reply, None;
    }
    var x := Claimed(reqs[at.k], at.me, now);
    if x.None? {
      return Crash, None;
    }
    reply, saved := Assigned(at.me, now), Some(reqs[at.k := x.value]);
  }

  method CsrUnassignRequest(reqs: seq<Record>, s: Session, rid: string)
    returns (reply: Reply, saved: Option<seq<Record>>)
    ensures Effect(reply, saved) == UnassignRoute(reqs, s, rid)
  {
    var at := LocateRequest(reqs, s, rid, AssignedTo);
    if at.Halt? {
      return at.reply, None;
    }
    reply, saved := Unassigned, Some(reqs[at.k := Released(reqs[at.k])]);
  }

  /**
   * The shared checks refuse in order: 401 without a role, 400 for an id
   * that is not an int, 404 when no record has it, and 409 when a truthy
   * assignee other than the caller holds the record; otherwise they settle
   * on the first record with the id and on the caller, which is never blank.
   */
  lemma LocateExact(reqs: seq<Record>, s: Session, rid: string, busy: string)
    ensures var l := Locate(reqs, s, rid, busy);
      var num := AppIds.ReqStringToInt(VStr(rid));
      (l == Halt(Refused(401, NotAuthenticated)) <==> s.role == "") &&
      (l == Halt(Refused(400, InvalidId)) <==> s.role != "" && num.None?) &&
      (l == Halt(Refused(404, NotFound)) <==>
        s.role != "" && num.Some? && forall j :: 0 <= j < |reqs| ==> !IdRaises(reqs[j]) && !IdIs(reqs[j], num.value)) &&
      (l.Halt? && l.reply.Refused? && l.reply.code == 409 ==>
        var k := ScanId(reqs, num.value).k;
        ScanId(reqs, num.value).Found? &&
        Truthy(Get(reqs[k], "assignedTo")) && Get(reqs[k], "assignedTo") != VStr(Caller(s, "CSR")) &&
        l.reply.message == busy + Str(Get(reqs[k], "assignedTo")))
    ensures var l := Locate(reqs, s, rid, busy);
      l.At? ==>
        var num := AppIds.ReqStringToInt(VStr(rid));
        s.role != "" && num.Some? && l.me == Caller(s, "CSR") && l.me != "" &&
        l.k < |reqs| && IdIs(reqs[l.k], num.value) &&
        (forall j :: 0 <= j < l.k ==> !IdRaises(reqs[j]) && !IdIs(reqs[j], num.value)) &&
        (!Truthy(Get(reqs[l.k], "assignedTo")) || Get(reqs[l.k], "assignedTo") == VStr(l.me))
  {
    match AppIds.ReqStringToInt(VStr(rid)) {
      case Some(num) => ScanIdExact(reqs, num);
      case None =>
    }
  }

  /**
   * Assign saves nothing unless it succeeds; then it changes only the
   * located record, whose assignee becomes the caller, whose stamp becomes
   * `now` and whose status is kept in lower case, every other field as it
   * was.  It raises on a truthy status that is not a str.
   */
  lemma AssignExact(reqs: seq<Record>, s: Session, rid: string, now: string)
    ensures var e := AssignRoute(reqs, s, rid, now);
      (!e.reply.Assigned? <==> e.saved.None?) &&
      (Locate(reqs, s, rid, AlreadyAssigned).Halt? ==> e.reply == Locate(reqs, s, rid, AlreadyAssigned).reply)
    ensures var e := AssignRoute(reqs, s, rid, now);
      e.reply.Assigned? ==>
        var l := Locate(reqs, s, rid, AlreadyAssigned);
        var r := reqs[l.k];
        var x := e.saved.value[l.k];
        l.At? && e.reply == Assigned(l.me, now) &&
        |e.saved.value| == |reqs| && (forall j :: 0 <= j < |reqs| && j != l.k ==> e.saved.value[j] == reqs[j]) &&
        x["assignedTo"] == VStr(l.me) && x["assignedAt"] == VStr(now) &&
        TextOr(Get(r, "status"), "pending").Some? &&
        x["status"] == VStr(Lower(TextOr(Get(r, "status"), "pending").value)) &&
        x.Keys == r.Keys + {"assignedTo", "assignedAt", "status"} &&
        forall f :: f in r && f != "assignedTo" && f != "assignedAt" && f != "status" ==> x[f] == r[f]
  {
  }

  /**
   * Unassign saves only when it succeeds; then it changes only the located
   * record, clearing its assignee and stamp and keeping every other field.
   */
  lemma UnassignExact(reqs: seq<Record>, s: Session, rid: string)
    ensures var e := UnassignRoute(reqs, s, rid);
      (!e.reply.Unassigned? <==> e.saved.None?) &&
      (Locate(reqs, s, rid, AssignedTo).Halt? ==> e.reply == Locate(reqs, s, rid, AssignedTo).reply)
    ensures var e := UnassignRoute(reqs, s, rid);
      e.reply.Unassigned? ==>
        var l := Locate(reqs, s, rid, AssignedTo);
        var r := reqs[l.k];
        var x := e.saved.value[l.k];
        l.At? &&
        |e.saved.value| == |reqs| && (forall j :: 0 <= j < |reqs| && j != l.k ==> e.saved.value[j] == reqs[j]) &&
        x["assignedTo"] == VNone && x["assignedAt"] == VNone &&
        x.Keys == r.Keys + {"assignedTo", "assignedAt"} &&
        forall f :: f in r && f != "assignedTo" && f != "assignedAt" ==> x[f] == r[f]
  {
  }

  /** Assign and unassign see the same record, and the same holder, for the same call. */
  lemma GuardsAgree(reqs: seq<Record>, s: Session, rid: string)
    ensures Locate(reqs, s, rid, AlreadyAssigned).At? <==> Locate(reqs, s, rid, AssignedTo).At?
    ensures Locate(reqs, s, rid, AlreadyAssigned).At? ==> Locate(reqs, s, rid, AlreadyAssigned) == Locate(reqs, s, rid, AssignedTo)
  {
  }

  /** After an assign the record is held by the caller and the scan still finds it where it was. */
  lemma AssignKeepsPlace(reqs: seq<Record>, s: Session, rid: string, now: string)
    requires AssignRoute(reqs, s, rid, now).reply.Assigned?
    ensures var l := Locate(reqs, s, rid, AlreadyAssigned);
      var after := AssignRoute(reqs, s, rid, now).saved.value;
      var num := AppIds.ReqStringToInt(VStr(rid)).value;
      l.At? && ScanId(after, num) == Found(l.k) && after[l.k]["assignedTo"] == VStr(l.me) &&
      after == reqs[l.k := Claimed(reqs[l.k], l.me, now).value]
  {
    var l := Locate(reqs, s, rid, AlreadyAssigned);
    var num := AppIds.ReqStringToInt(VStr(rid)).value;
    assert ScanId(reqs, num) == Found(l.k);
    var x := Claimed(reqs[l.k], l.me, now).value;
    assert GetOr(x, "id", VInt(0)) == GetOr(reqs[l.k], "id", VInt(0));
    ScanIdUpdate(reqs, num, l.k, x);
  }

  /** After an assign, the shared checks of either route settle on the same record for the same caller. */
  lemma HolderLocated(reqs: seq<Record>, s: Session, rid: string, now: string, busy: string)
    requires AssignRoute(reqs, s, rid, now).reply.Assigned?
    ensures var l := Locate(reqs, s, rid, AlreadyAssigned);
      Locate(AssignRoute(reqs, s, rid, now).saved.value, s, rid, busy) == l
  {
    AssignKeepsPlace(reqs, s, rid, now);
  }

  /**
   * Once a CSR holds a request, another CSR's assign or unassign of it is
   * refused with 409 naming the holder and saves nothing.
   */
  lemma AssignBlocksOthers(reqs: seq<Record>, s: Session, rid: string, now: string, other: Session, later: string)
    requires AssignRoute(reqs, s, rid, now).reply.Assigned?
    requires other.role != "" && Caller(other, "CSR") != Caller(s, "CSR")
    ensures var after := AssignRoute(reqs, s, rid, now).saved.value;
      AssignRoute(after, other, rid, later) == Effect(Refused(409, AlreadyAssigned + Caller(s, "CSR")), None) &&
      UnassignRoute(after, other, rid) == Effect(Refused(409, AssignedTo + Caller(s, "CSR")), None)
  {
    AssignKeepsPlace(reqs, s, rid, now);
    var l := Locate(reqs, s, rid, AlreadyAssigned);
    assert l.me == Caller(s, "CSR") && l.me != "";
  }

  /** Releasing a claimed record leaves it as it was but for the assignee, the stamp and the lower-cased status. */
  lemma ReleaseClaimed(r: Record, me: string, now: string)
    requires Claimed(r, me, now).Some?
    ensures var y := Released(Claimed(r, me, now).value);
      y["assignedTo"] == VNone && y["assignedAt"] == VNone &&
      y["status"] == VStr(Lower(TextOr(Get(r, "status"), "pending").value)) &&
      forall f :: f in r && f != "assignedTo" && f != "assignedAt" && f != "status" ==> y[f] == r[f]
  {
  }

  /**
   * The holder can assign again and can unassign: unassign after assign
   * leaves the request with no assignee and no stamp, its status in lower
   * case, and every other field and every other request as before the
   * assign.
   */
  lemma AssignThenUnassign(reqs: seq<Record>, s: Session, rid: string, now: string)
    requires AssignRoute(reqs, s, rid, now).reply.Assigned?
    ensures var after := AssignRoute(reqs, s, rid, now).saved.value;
      var l := Locate(reqs, s, rid, AlreadyAssigned);
      var e := UnassignRoute(after, s, rid);
      AssignRoute(after, s, rid, now).reply.Assigned? &&
      e.reply == Unassigned &&
      e.saved == Some(reqs[l.k := Released(Claimed(reqs[l.k], l.me, now).value)])
  {
    AssignKeepsPlace(reqs, s, rid, now);
    HolderLocated(reqs, s, rid, now, AssignedTo);
    HolderLocated(reqs, s, rid, now, AlreadyAssigned);
    var l := Locate(reqs, s, rid, AlreadyAssigned);
    var after := AssignRoute(reqs, s, rid, now).saved.value;
    assert Get(after[l.k], "status").VStr?;
    assert after[l.k := Released(after[l.k])] == reqs[l.k := Released(Claimed(reqs[l.k], l.me, now).value)];
  }
}
