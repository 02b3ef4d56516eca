/**
 * A PIN creates a request (UserStory13): the controller checks the five
 * required fields in order, the entity builds the record, generates an id
 * when the caller gave none, appends it and saves the list.
 */
module CreateRequest {
  import opened PyValue

  const TitleRequired := "Error: Request title is required."
  const DescriptionRequired := "Error: Request description is required."
  const CategoryRequired := "Error: Request category is required."
  const DateRequired := "Error: Request date is required."
  const LocationRequired := "Error: Request location is required."
  const NoLoader := "Error: load_requests function not provided."
  const NoSaver := "Error: save_requests function not provided."

  function SaveFailed(e: string): string {
    "Error saving request: " + e
  }

  /**
   * `not v or not v.strip()`: Some(true) when the field is missing or blank,
   * Some(false) when it is present, None when `strip` would raise (not a str).
   */
  function Missing(v: Value): Option<bool> {
    if !Truthy(v) then Some(true)
    else if v.VStr? then Some(Blank(v.s))
    else None
  }

  predicate Present(v: Value) {
    Missing(v) == Some(false)
  }

  /** The fields a PIN supplies. */
  datatype Draft = Draft(
    title: Value, description: Value, category: Value, date: Value, location: Value,
    owner: Value, time: Value, requestId: Value)

  /** The controller's verdict on the required fields, checked in order. */
  function Validate(d: Draft): Outcome<()> {
    Check(d.title, TitleRequired,
    Check(d.description, DescriptionRequired,
    Check(d.category, CategoryRequired,
    Check(d.date, DateRequired,
    Check(d.location, LocationRequired, Ok(()))))))
  }

  /** One `if not v or not v.strip(): return msg`, followed by the remaining checks. */
  function Check(v: Value, msg: string, rest: Outcome<()>): Outcome<()> {
    match Missing(v)
    case None => Raised
    case Some(true) => Err(msg)
    case Some(false) => rest
  }

  /** `request_id if request_id else f'REQ-{len(all_requests) + 100}'` */
  function NewId(requestId: Value, existing: nat): Value {
    if Truthy(requestId) then requestId else VStr("REQ-" + IntToString(existing + 100))
  }

  /** The record the entity builds; `now` stands for `datetime.now().isoformat()`. */
  function NewRecord(d: Draft, existing: nat, now: string): Record {
    map[
      "id" := NewId(d.requestId, existing),
      "title" := d.title,
      "category" := d.category,
      "description" := d.description,
      "location" := d.location,
      "date" := d.date,
      "time" := Or(d.time, VStr("")),
      "status" := VStr("Pending"),
      "owner" := Or(d.owner, VStr("")),
      "created" := VStr(now)
    ]
  }

  /**
   * `Request.createRequest`.  `loaded` is None when no loader was given,
   * `canSave` says whether a save function was given, `saveError` is the
   * message of the exception the save function raises, if any.  `saved` is
   * the list handed to the save function, None when it is not called.
   */
  method EntityCreateRequest(d: Draft, loaded: Option<seq<Record>>, canSave: bool,
                             saveError: Option<string>, now: string)
    returns (res: Outcome<Record>, saved: Option<seq<Record>>)
    ensures loaded.None? ==> res == Err(NoLoader) && saved == None
    ensures loaded.Some? && !canSave ==> res == Err(NoSaver) && saved == None
    ensures loaded.Some? && canSave ==>
      var rec := NewRecord(d, |loaded.value|, now);
      saved == Some(loaded.value + [rec]) &&
      res == (if saveError.Some? then Err(SaveFailed(saveError.value)) else Ok(rec))
  {
    if loaded.None? {
      return Err(NoLoader), None;
    }
    var all := loaded.value;
    var rec := NewRecord(d, |all|, now);
    if !canSave {
      return Err(NoSaver), None;
    }
    all := all + [rec];
    saved := Some(all);
    if saveError.Some? {
      res := Err(SaveFailed(saveError.value));
    } else {
      res := Ok(rec);
    }
  }

  /** `CreateRequestController.createRequest`: validation first, then the entity. */
  method CreateRequest(d: Draft, loaded: Option<seq<Record>>, canSave: bool,
                       saveError: Option<string>, now: string)
    returns (res: Outcome<Record>, saved: Option<seq<Record>>)
    ensures Validate(d).Err? ==> res == Err(Validate(d).message) && saved == None
    ensures Validate(d).Raised? ==> res == Raised && saved == None
    ensures Validate(d).Ok? && loaded.Some? && canSave ==>
      saved == Some(loaded.value + [NewRecord(d, |loaded.value|, now)])
    ensures Validate(d).Ok? && (loaded.None? || !canSave) ==> res.Err? && saved == None
    ensures res.Ok? ==> saved.Some? && saveError.None? && loaded.Some? && saved.value == loaded.value + [res.value]
    ensures Validate(d).Ok? ==>
      (loaded.None? ==> res == Err(NoLoader)) &&
      (loaded.Some? && !canSave ==> res == Err(NoSaver)) &&
      (loaded.Some? && canSave ==>
        res == (if saveError.Some? then Err(SaveFailed(saveError.value)) else Ok(NewRecord(d, |loaded.value|, now))))
  {
    var v := Validate(d);
    if v.Err? {
      return Err(v.message), None;
    } else if v.Raised? {
      return Raised, None;
    }
    res, saved := EntityCreateRequest(d, loaded, canSave, saveError, now);
  }

  /** The first missing field decides the message, in the order title, description, category, date, location. */
  lemma ValidationOrder(d: Draft)
    ensures Missing(d.title) == Some(true) ==> Validate(d) == Err(TitleRequired)
    ensures Present(d.title) && Missing(d.description) == Some(true) ==>
      Validate(d) == Err(DescriptionRequired)
    ensures (Present(d.title) && Present(d.description) && Missing(d.category) == Some(true)) ==>
      Validate(d) == Err(CategoryRequired)
    ensures (Present(d.title) && Present(d.description) && Present(d.category) &&
             Missing(d.date) == Some(true)) ==>
      Validate(d) == Err(DateRequired)
    ensures (Present(d.title) && Present(d.description) && Present(d.category) && Present(d.date) &&
             Missing(d.location) == Some(true)) ==>
      Validate(d) == Err(LocationRequired)
    ensures Validate(d) == Ok(()) <==>
      Present(d.title) && Present(d.description) && Present(d.category) && Present(d.date) &&
      Present(d.location)
  {
  }

  /** A truthy caller id is used verbatim; otherwise the id is "REQ-" followed by the list length plus 100. */
  lemma NewRecordFields(d: Draft, existing: nat, now: string)
    ensures Truthy(d.requestId) ==> NewRecord(d, existing, now)["id"] == d.requestId
    ensures !Truthy(d.requestId) ==> NewRecord(d, existing, now)["id"] == VStr("REQ-" + IntToString(existing + 100))
    ensures NewRecord(d, existing, now)["status"] == VStr("Pending")
    ensures !Truthy(d.owner) ==> NewRecord(d, existing, now)["owner"] == VStr("")
    ensures !Truthy(d.time) ==> NewRecord(d, existing, now)["time"] == VStr("")
  {
  }

  /** Generated ids depend only on the list length, so a list holding "REQ-101" as its one record gets a second "REQ-101". */
  lemma GeneratedIdCanCollide(d: Draft, r: Record, now: string)
    requires !Truthy(d.requestId) && Get(r, "id") == VStr("REQ-101")
    ensures NewRecord(d, |[r]|, now)["id"] == Get(r, "id")
  {
    assert IntToString(101) == "101" by {
      assert NatToString(1) == "1";
      assert NatToString(10) == "10";
    }
  }
}
