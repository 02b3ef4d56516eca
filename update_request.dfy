/**
 * A PIN updates a request (UserStory15): the controller checks the payload
 * and the id, finds the record with the shared lookup, and the entity writes
 * each field whose value resolves to something other than None, checking the
 * date and time formats, stamps `last_updated` and saves the whole list.
 */
module UpdateRequest {
  import opened PyValue
  import opened Seqs
  import ViewRequest

  const DataRequired := "Error: Update data is required."
  const IdRequired := "Error: Request ID is required."
  const NoLoader := "Error: load_requests function not provided."
  const BadDate := "Error: Invalid date format. Please use YYYY-MM-DD."
  const BadTime := "Error: Invalid time format. Please use HH:MM."
  const NoSaver := "Error: save_requests function not provided."

  function SaveFailed(e: string): string {
    "Error saving updated request: " + e
  }

  /** `update_data.get(key) or update_data.get(alias)` */
  function Resolve(u: Record, key: string, alias: string): Value {
    Or(Get(u, key), Get(u, alias))
  }

  /** `if v is not None: r[k] = v` */
  function Put(r: Record, k: string, v: Value): Record {
    if v == VNone then r else r[k := v]
  }

  /**
   * `datetime.strptime(v, fmt)` used as a check: None when `v` is not a str
   * (TypeError, which the entity does not catch), else whether it parses.
   */
  function Parses(v: Value, valid: string -> bool): Option<bool> {
    if v.VStr? then Some(valid(v.s)) else None
  }

  /** Title, category and description are written before the date is checked. */
  function WriteTexts(r: Record, u: Record): Record {
    var r1 := Put(r, "title", Resolve(u, "title", "requestTitle"));
    var r2 := Put(r1, "category", Resolve(u, "category", "requestCategory"));
    Put(r2, "description", Resolve(u, "description", "requestDescription"))
  }

  /** Date and location, written once the date has passed its check. */
  function WritePlace(r: Record, u: Record): Record {
    Put(Put(r, "date", Resolve(u, "date", "requestDate")), "location", Resolve(u, "location", "requestLocation"))
  }

  /** Time and status, written once the time has passed its check, then the stamp. */
  function WriteRest(r: Record, u: Record, now: string): Record {
    Put(Put(r, "time", Get(u, "time")), "status", Resolve(u, "status", "requestStatus"))["last_updated" := VStr(now)]
  }

  /**
   * The entity's field writes, in source order.  `isDate`/`isTime` decide
   * whether strptime accepts a string for '%Y-%m-%d' / '%H:%M'; `now` stands
   * for `datetime.now().isoformat()`.
   */
  function ApplyUpdate(r: Record, u: Record, isDate: string -> bool, isTime: string -> bool, now: string)
    : Outcome<Record>
  {
    var newDate := Resolve(u, "date", "requestDate");
    var newTime := Get(u, "time");
    if newDate != VNone && Parses(newDate, isDate).None? then Raised
    else if newDate != VNone && Parses(newDate, isDate) == Some(false) then Err(BadDate)
    else if newTime != VNone && Parses(newTime, isTime).None? then Raised
    else if newTime != VNone && Parses(newTime, isTime) == Some(false) then Err(BadTime)
    else Ok(Updated(r, u, now))
  }

  /** The record after all the writes. */
  function Updated(r: Record, u: Record, now: string): Record {
    WriteRest(WritePlace(WriteTexts(r, u), u), u, now)
  }

  /** strptime accepts the value, or there is no value to check. */
  predicate Accepted(v: Value, valid: string -> bool) {
    v == VNone || (v.VStr? && valid(v.s))
  }

  /** The update succeeds exactly when both the date and the time pass their checks. */
  lemma ApplyUpdateOutcome(r: Record, u: Record, isDate: string -> bool, isTime: string -> bool, now: string)
    ensures ApplyUpdate(r, u, isDate, isTime, now).Ok? <==>
      Accepted(Resolve(u, "date", "requestDate"), isDate) && Accepted(Get(u, "time"), isTime)
    ensures ApplyUpdate(r, u, isDate, isTime, now).Ok? ==>
      ApplyUpdate(r, u, isDate, isTime, now).value == Updated(r, u, now)
  {
  }

  predicate Updatable(k: string) {
    k in {"title", "category", "description", "date", "location", "time", "status", "last_updated"}
  }

  /** The value field `k` holds after `Put(r, k', v)`. */
  lemma PutLookup(r: Record, k': string, v: Value, k: string)
    ensures k in Put(r, k', v) <==> k in r || (k == k' && v != VNone)
    ensures k == k' && v != VNone ==> Put(r, k', v)[k] == v
    ensures k in r && (k != k' || v == VNone) ==> Put(r, k', v)[k] == r[k]
  {
  }

  /** What field `k` holds after the update: the resolved value when it is not None, else the old one. */
  function Expected(r: Record, k: string, v: Value): Option<Value> {
    if v != VNone then Some(v) else if k in r then Some(r[k]) else None
  }

  function Field(r: Record, k: string): Option<Value> {
    if k in r then Some(r[k]) else None
  }

  lemma WriteTextsFields(r: Record, u: Record)
    ensures Field(WriteTexts(r, u), "title") == Expected(r, "title", Resolve(u, "title", "requestTitle"))
    ensures Field(WriteTexts(r, u), "category") == Expected(r, "category", Resolve(u, "category", "requestCategory"))
    ensures Field(WriteTexts(r, u), "description") ==
      Expected(r, "description", Resolve(u, "description", "requestDescription"))
  {
  }

  lemma WritePlaceFields(r: Record, u: Record)
    ensures Field(WritePlace(r, u), "date") == Expected(r, "date", Resolve(u, "date", "requestDate"))
    ensures Field(WritePlace(r, u), "location") == Expected(r, "location", Resolve(u, "location", "requestLocation"))
  {
  }

  lemma WritePlaceKeeps(r: Record, u: Record, k: string)
    requires k != "date" && k != "location"
    ensures Field(WritePlace(r, u), k) == Field(r, k)
  {
  }

  lemma WriteRestFields(r: Record, u: Record, now: string)
    ensures Field(WriteRest(r, u, now), "time") == Expected(r, "time", Get(u, "time"))
    ensures Field(WriteRest(r, u, now), "status") == Expected(r, "status", Resolve(u, "status", "requestStatus"))
    ensures Field(WriteRest(r, u, now), "last_updated") == Some(VStr(now))
  {
  }

  lemma WriteRestKeeps(r: Record, u: Record, now: string, k: string)
    requires k != "time" && k != "status" && k != "last_updated"
    ensures Field(WriteRest(r, u, now), k) == Field(r, k)
  {
  }

  /** The text fields take their resolved value when it is not None and keep the old one otherwise. */
  lemma UpdatedTexts(r: Record, u: Record, now: string)
    ensures Field(Updated(r, u, now), "title") == Expected(r, "title", Resolve(u, "title", "requestTitle"))
    ensures Field(Updated(r, u, now), "category") == Expected(r, "category", Resolve(u, "category", "requestCategory"))
    ensures Field(Updated(r, u, now), "description") ==
      Expected(r, "description", Resolve(u, "description", "requestDescription"))
  {
    var r3 := WriteTexts(r, u);
    var r5 := WritePlace(r3, u);
    WriteTextsFields(r, u);
    WritePlaceKeeps(r3, u, "title");
    WritePlaceKeeps(r3, u, "category");
    WritePlaceKeeps(r3, u, "description");
    WriteRestKeeps(r5, u, now, "title");
    WriteRestKeeps(r5, u, now, "category");
    WriteRestKeeps(r5, u, now, "description");
  }

  /** So do date, location, time and status; `last_updated` is stamped with `now`. */
  lemma UpdatedSchedule(r: Record, u: Record, now: string)
    ensures Field(Updated(r, u, now), "date") == Expected(r, "date", Resolve(u, "date", "requestDate"))
    ensures Field(Updated(r, u, now), "location") == Expected(r, "location", Resolve(u, "location", "requestLocation"))
    ensures Field(Updated(r, u, now), "time") == Expected(r, "time", Get(u, "time"))
    ensures Field(Updated(r, u, now), "status") == Expected(r, "status", Resolve(u, "status", "requestStatus"))
    ensures Field(Updated(r, u, now), "last_updated") == Some(VStr(now))
  {
    var r3 := WriteTexts(r, u);
    var r5 := WritePlace(r3, u);
    WritePlaceFields(r3, u);
    WriteRestFields(r5, u, now);
    WriteRestKeeps(r5, u, now, "date");
    WriteRestKeeps(r5, u, now, "location");
    assert Field(r3, "time") == Field(r, "time") && Field(r3, "status") == Field(r, "status");
    WritePlaceKeeps(r3, u, "time");
    WritePlaceKeeps(r3, u, "status");
  }

  /** Fields the update does not name are kept, and no other field appears. */
  lemma UpdatedKeeps(r: Record, u: Record, now: string, k: string)
    requires !Updatable(k)
    ensures Field(Updated(r, u, now), k) == Field(r, k)
  {
  }

  /** A date that strptime rejects stops the update, whatever else was asked for. */
  lemma BadDateRejected(r: Record, u: Record, isDate: string -> bool, isTime: string -> bool, now: string)
    requires Resolve(u, "date", "requestDate").VStr? && !isDate(Resolve(u, "date", "requestDate").s)
    ensures ApplyUpdate(r, u, isDate, isTime, now) == Err(BadDate)
  {
  }

  /** A time that strptime rejects stops the update once the date has passed. */
  lemma BadTimeRejected(r: Record, u: Record, isDate: string -> bool, isTime: string -> bool, now: string)
    requires Parses(Resolve(u, "date", "requestDate"), isDate) != Some(false)
    requires Resolve(u, "date", "requestDate") != VNone ==> Resolve(u, "date", "requestDate").VStr?
    requires Get(u, "time").VStr? && !isTime(Get(u, "time").s)
    ensures ApplyUpdate(r, u, isDate, isTime, now) == Err(BadTime)
  {
  }

  /**
   * `UpdateRequestController.submitUpdate` with the entity's save step.
   * `saved` is the list handed to the save function, None when it is not called.
   */
  method SubmitUpdate(data: Arg, loaded: Option<seq<Record>>, canSave: bool, saveError: Option<string>,
                      isDate: string -> bool, isTime: string -> bool, now: string)
    returns (res: Outcome<Record>, saved: Option<seq<Record>>)
    ensures !data.DictArg? || !RecordTruthy(data.d) ==> res == Err(DataRequired) && saved == None
    ensures data.DictArg? && RecordTruthy(data.d) && !Truthy(Resolve(data.d, "requestID", "id")) ==>
      res == Err(IdRequired) && saved == None
    ensures data.DictArg? && RecordTruthy(data.d) && Truthy(Resolve(data.d, "requestID", "id")) ==>
      var id := Resolve(data.d, "requestID", "id");
      (loaded.None? ==> res == Err(NoLoader) && saved == None) &&
      (loaded.Some? ==>
        var all := loaded.value;
        var k := FirstIndex(all, ViewRequest.Matcher(id));
        if !ViewRequest.Found(all, k) then res == Err(ViewRequest.NotFound(id)) && saved == None
        else
          var upd := ApplyUpdate(all[k.value], data.d, isDate, isTime, now);
          if !upd.Ok? then res == upd && saved == None
          else if !canSave then res == Err(NoSaver) && saved == None
          else saved == Some(all[k.value := upd.value]) &&
               res == (if saveError.Some? then Err(SaveFailed(saveError.value)) else Ok(upd.value)))
  {
    if !data.DictArg? || !RecordTruthy(data.d) {
      return Err(DataRequired), None;
    }
    var id := Or(Get(data.d, "requestID"), Get(data.d, "id"));
    if !Truthy(id) {
      return Err(IdRequired), None;
    }
    if loaded.None? {
      return Err(NoLoader), None;
    }
    var all := loaded.value;
    var k := ViewRequest.FindRequest(all, id);
    if !ViewRequest.Found(all, k) {
      return Err(ViewRequest.NotFound(id)), None;
    }
    var upd := ApplyUpdate(all[k.value], data.d, isDate, isTime, now);
    if !upd.Ok? {
      return upd, None;
    }
    all := all[k.value := upd.value];
    if !canSave {
      return Err(NoSaver), None;
    }
    saved := Some(all);
    if saveError.Some? {
      res := Err(SaveFailed(saveError.value));
    } else {
      res := Ok(upd.value);
    }
  }

  /**
   * The list a successful update saves: the same length, the found record
   * replaced by its updated form and every other record as loaded.  The
   * update never writes 'id', so the same lookup finds the updated record.
   */
  lemma SavedListShape(all: seq<Record>, id: Value, u: Record, now: string)
    requires FirstIndex(all, ViewRequest.Matcher(id)).Some?
    ensures var k := FirstIndex(all, ViewRequest.Matcher(id)).value;
      var saved := all[k := Updated(all[k], u, now)];
      |saved| == |all| &&
      (forall j :: 0 <= j < |all| && j != k ==> saved[j] == all[j]) &&
      FirstIndex(saved, ViewRequest.Matcher(id)) == Some(k) &&
      saved[k] == Updated(all[k], u, now)
  {
    var k := FirstIndex(all, ViewRequest.Matcher(id)).value;
    var r' := Updated(all[k], u, now);
    UpdatedKeeps(all[k], u, now, "id");
    assert GetOr(r', "id", VStr("")) == GetOr(all[k], "id", VStr(""));
    assert ViewRequest.Matcher(id)(all[k := r'][k]);
  }
}
