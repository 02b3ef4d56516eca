/**
 * The combined service's CSR work routes (Max_app.py): assign a request to
 * the caller, unassign it, and complete it.  Any logged-in session may call
 * them.  Each picks the first request whose plain id is the requested one,
 * changes that record and saves the list; the `_now_iso()` stamps are
 * parameters.
 */
module MaxAppAssign {
  import opened PyValue
  import opened Seqs
  import opened MaxAppIds

  const NotAuthenticated := "Not authenticated"
  const NotFound := "Not found"

  /** A route's answer (the changed record) and the list it saves (None: no save). */
  datatype Change = Change(result: Outcome<Record>, saved: Option<seq<Record>>)

  /** `_req_plain_id(r.get('id')) == rid` */
  predicate SamePlain(r: Record, rid: string) {
    ReqPlainId(Get(r, "id")) == rid
  }

  function SamePlainOn(rid: string): Record -> bool {
    (r: Record) => SamePlain(r, rid)
  }

  /** `(found.get('status') or '').lower()`; None where a truthy non-str has no `lower`. */
  function StatusLower(v: Value): Option<string> {
    if !Truthy(v) then Some("")
    else if v.VStr? then Some(Lower(v.s))
    else None
  }

  /** The record after assign: the caller and the stamp, then 'in progress' unless completed. */
  function Assigned(r: Record, me: string, now: Value): Option<Record> {
    var x := r["assignedTo" := VStr(me)]["assignedAt" := now];
    match StatusLower(Get(r, "status"))
    case None => None
    case Some(st) => Some(if st != "completed" then x["status" := VStr("in progress")] else x)
  }

  function AssignedOn(me: string, now: Value): Record -> Option<Record> {
    (r: Record) => Assigned(r, me, now)
  }

  /** The record after unassign: no assignee, no stamp, then 'pending' unless completed. */
  function Unassigned(r: Record): Option<Record> {
    var x := r["assignedTo" := VNone]["assignedAt" := VNone];
    match StatusLower(Get(r, "status"))
    case None => None
    case Some(st) => Some(if st != "completed" then x["status" := VStr("pending")] else x)
  }

  function UnassignedOn(): Record -> Option<Record> {
    (r: Record) => Unassigned(r)
  }

  /**
   * The record after complete: 'Completed' with its stamp, and the caller as
   * assignee (with the second stamp) only when nobody is assigned.
   */
  function Completed(r: Record, me: string, doneAt: Value, assignAt: Value): Record {
    var x := r["status" := VStr("Completed")]["completedAt" := doneAt];
    if Truthy(Get(r, "assignedTo")) then x else x["assignedTo" := VStr(me)]["assignedAt" := assignAt]
  }

  function CompletedOn(me: string, doneAt: Value, assignAt: Value): Record -> Option<Record> {
    (r: Record) => Some(Completed(r, me, doneAt, assignAt))
  }

  /**
   * The tail the three routes share: the first record `p` accepts is
   * changed by `change` and the list saved; no record, or an empty one, is
   * "Not found"; a `change` that raises saves nothing.
   */
  function ChangeFirst(reqs: seq<Record>, p: Record -> bool, change: Record -> Option<Record>): Change {
    match FirstIndex(reqs, p)
    case None => Change(Err(NotFound), None)
    case Some(k) =>
      if !RecordTruthy(reqs[k]) then Change(Err(NotFound), None)
      else
        match change(reqs[k])
        case None => Change(Raised, None)
        case Some(x) => Change(Ok(x), Some(reqs[k := x]))
  }

  /** The routes' guard, `if not session.get('role')`. */
  predicate LoggedIn(s: Session) {
    s.role != ""
  }

  /** The specification of `max_csr_assign_request`. */
  function AssignRoute(reqs: seq<Record>, s: Session, requestId: string, now: Value): Change {
    if !LoggedIn(s) then Change(Err(NotAuthenticated), None)
    else ChangeFirst(reqs, SamePlainOn(ReqPlainId(VStr(requestId))), AssignedOn(Caller(s, "CSR"), now))
  }

  /** The specification of `max_csr_unassign_request`. */
  function UnassignRoute(reqs: seq<Record>, s: Session, requestId: string): Change {
    if !LoggedIn(s) then Change(Err(NotAuthenticated), None)
    else ChangeFirst(reqs, SamePlainOn(ReqPlainId(VStr(requestId))), UnassignedOn())
  }

  /** The specification of `max_csr_complete_request`. */
  function CompleteRoute(reqs: seq<Record>, s: Session, requestId: string, doneAt: Value, assignAt: Value): Change {
    if !LoggedIn(s) then Change(Err(NotAuthenticated), None)
    else ChangeFirst(reqs, SamePlainOn(ReqPlainId(VStr(requestId))), CompletedOn(Caller(s, "CSR"), doneAt, assignAt))
  }

  // ------------------------------------------------------------------ routes

  /** `next(...)`, the truthiness test, the change of `found` in place and `save_requests`. */
  method ChangeFound(reqs: seq<Record>, p: Record -> bool, change: Record -> Option<Record>)
    returns (result: Outcome<Record>, saved: Option<seq<Record>>)
    ensures Change(result, saved) == ChangeFirst(reqs, p, change)
  {
    var found := FindFirst(reqs, p);
    if found.None? || reqs[found.value] == map[] {
      return Err(NotFound), None;
    }
    var k := found.value;
    var x := change(reqs[k]);
    if x.None? {
      return Raised, None;
    }
    var updated := reqs[k := x.value];
    result, saved := Ok(x.value), Some(updated);
  }

  method MaxCsrAssignRequest(reqs: seq<Record>, s: Session, requestId: string, now: Value)
    returns (result: Outcome<Record>, saved: Option<seq<Record>>)
    ensures Change(result, saved) == AssignRoute(reqs, s, requestId, now)
  {
    if s.role == "" {
      return Err(NotAuthenticated), None;
    }
    var me := Caller(s, "CSR");
    var rid := ReqPlainId(VStr(requestId));
    result, saved := ChangeFound(reqs, SamePlainOn(rid), AssignedOn(me, now));
  }

  method MaxCsrUnassignRequest(reqs: seq<Record>, s: Session, requestId: string)
    returns (result: Outcome<Record>, saved: Option<seq<Record>>)
    ensures Change(result, saved) == UnassignRoute(reqs, s, requestId)
  {
    if s.role == "" {
      return Err(NotAuthenticated), None;
    }
    var rid := ReqPlainId(VStr(requestId));
    result, saved := ChangeFound(reqs, SamePlainOn(rid), UnassignedOn());
  }

  method MaxCsrCompleteRequest(reqs: seq<Record>, s: Session, requestId: string, doneAt: Value, assignAt: Value)
    returns (result: Outcome<Record>, saved: Option<seq<Record>>)
    ensures Change(result, saved) == CompleteRoute(reqs, s, requestId, doneAt, assignAt)
  {
    if s.role == "" {
      return Err(NotAuthenticated), None;
    }
    var me := Caller(s, "CSR");
    var rid := ReqPlainId(VStr(requestId));
    result, saved := ChangeFound(reqs, SamePlainOn(rid), CompletedOn(me, doneAt, assignAt));
  }

  // ------------------------------------------------------------------ properties

  /**
   * Only the first record `p` accepts can change, and the route answers with
   * it as changed.  No record, or an empty one, is "Not found"; a change that
   * raises saves nothing.
   */
  lemma ChangeFirstExact(reqs: seq<Record>, p: Record -> bool, change: Record -> Option<Record>)
    ensures var c := ChangeFirst(reqs, p, change);
      (c.result == Err(NotFound) <==>
        FirstIndex(reqs, p).None? || !RecordTruthy(reqs[FirstIndex(reqs, p).value])) &&
      (c.result.Err? ==> c.saved.None?) &&
      (c.result == Raised <==> c.saved.None? && !c.result.Err?) &&
      (c.result.Ok? <==> c.saved.Some?) &&
      (c.saved.Some? ==>
        var k := FirstIndex(reqs, p).value;
        p(reqs[k]) && RecordTruthy(reqs[k]) && change(reqs[k]) == Some(c.result.value) &&
        |c.saved.value| == |reqs| && c.saved.value[k] == c.result.value &&
        (forall j :: 0 <= j < |reqs| && j != k ==> c.saved.value[j] == reqs[j]))
  {
  }

  /**
   * Assign records the caller and the stamp and sets 'in progress' unless
   * the status, in lower case, is 'completed'; every other field is kept.
   * It raises only on a truthy status that is not a str.
   */
  lemma AssignedExact(r: Record, me: string, now: Value)
    ensures Assigned(r, me, now).Some? <==> StatusLower(Get(r, "status")).Some?
    ensures Assigned(r, me, now).Some? ==>
      var x := Assigned(r, me, now).value;
      var st := StatusLower(Get(r, "status")).value;
      x["assignedTo"] == VStr(me) && x["assignedAt"] == now &&
      (st != "completed" ==> x["status"] == VStr("in progress")) &&
      (st == "completed" ==> Get(x, "status") == Get(r, "status")) &&
      (forall key :: key in r && key != "assignedTo" && key != "assignedAt" && key != "status" ==> key in x && x[key] == r[key])
  {
  }

  /**
   * Unassign clears the assignee and the stamp and sets 'pending' unless
   * completed; every other field is kept.
   */
  lemma UnassignedExact(r: Record)
    ensures Unassigned(r).Some? <==> StatusLower(Get(r, "status")).Some?
    ensures Unassigned(r).Some? ==>
      var x := Unassigned(r).value;
      var st := StatusLower(Get(r, "status")).value;
      x["assignedTo"] == VNone && x["assignedAt"] == VNone &&
      (st != "completed" ==> x["status"] == VStr("pending")) &&
      (st == "completed" ==> Get(x, "status") == Get(r, "status")) &&
      (forall key :: key in r && key != "assignedTo" && key != "assignedAt" && key != "status" ==> key in x && x[key] == r[key])
  {
  }

  /**
   * Complete sets 'Completed' and its stamp; an existing assignee stays,
   * and only a request nobody holds gets the caller; every other field is kept.
   */
  lemma CompletedExact(r: Record, me: string, doneAt: Value, assignAt: Value)
    ensures var x := Completed(r, me, doneAt, assignAt);
      x["status"] == VStr("Completed") && x["completedAt"] == doneAt &&
      (Truthy(Get(r, "assignedTo")) ==> Get(x, "assignedTo") == Get(r, "assignedTo") && Get(x, "assignedAt") == Get(r, "assignedAt")) &&
      (!Truthy(Get(r, "assignedTo")) ==> x["assignedTo"] == VStr(me) && x["assignedAt"] == assignAt) &&
      (forall key :: key in r && key !in {"status", "completedAt", "assignedTo", "assignedAt"} ==> key in x && x[key] == r[key])
  {
  }

  /** Unassigning undoes an assign: it leaves the record as unassigning it directly would. */
  lemma UnassignUndoesAssign(r: Record, me: string, now: Value)
    requires Assigned(r, me, now).Some?
    ensures Unassigned(Assigned(r, me, now).value) == Unassigned(r)
  {
    var x := Assigned(r, me, now).value;
    var st := StatusLower(Get(r, "status")).value;
    if st != "completed" {
      assert Get(x, "status") == VStr("in progress");
      assert Lower("in progress") == "in progress";
      assert StatusLower(Get(x, "status")) == Some("in progress");
    } else {
      assert Get(x, "status") == Get(r, "status");
    }
    assert Unassigned(x).value == Unassigned(r).value;
  }

  /** A completed request stays 'Completed' when it is then assigned or unassigned. */
  lemma CompletedStays(r: Record, me: string, doneAt: Value, assignAt: Value, other: string, now: Value)
    ensures var c := Completed(r, me, doneAt, assignAt);
      Assigned(c, other, now).Some? && Assigned(c, other, now).value["status"] == VStr("Completed") &&
      Unassigned(c).Some? && Unassigned(c).value["status"] == VStr("Completed")
  {
    var c := Completed(r, me, doneAt, assignAt);
    assert Get(c, "status") == VStr("Completed");
    assert Lower("Completed") == "completed";
  }

  /** Completing twice keeps the first completion's assignee. */
  lemma CompleteTwiceKeepsAssignee(r: Record, me: string, d1: Value, a1: Value, other: string, d2: Value, a2: Value)
    requires me != ""
    ensures var c := Completed(r, me, d1, a1);
      var c2 := Completed(c, other, d2, a2);
      Get(c2, "assignedTo") == Get(c, "assignedTo") && Get(c2, "assignedAt") == Get(c, "assignedAt") && c2["status"] == VStr("Completed")
  {
    var c := Completed(r, me, d1, a1);
    assert Truthy(Get(c, "assignedTo"));
  }

  /** The callers' name the routes stamp is never empty: 'CSR' stands in for a session without one. */
  lemma CallerNeverEmpty(s: Session)
    ensures Caller(s, "CSR") != ""
    ensures s.name == "" && s.username == "" ==> Caller(s, "CSR") == "CSR"
  {
  }

  /** Without a session role every route answers "Not authenticated" and saves nothing. */
  lemma RoutesNeedLogin(reqs: seq<Record>, s: Session, requestId: string, now: Value, doneAt: Value)
    requires !LoggedIn(s)
    ensures AssignRoute(reqs, s, requestId, now) == Change(Err(NotAuthenticated), None)
    ensures UnassignRoute(reqs, s, requestId) == Change(Err(NotAuthenticated), None)
    ensures CompleteRoute(reqs, s, requestId, doneAt, now) == Change(Err(NotAuthenticated), None)
  {
  }
}
