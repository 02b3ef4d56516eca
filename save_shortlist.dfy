/**
 * A CSR saves a request to the shortlist (UserStory24): the request is
 * found with the shared lookup, refused when it is already shortlisted, and
 * otherwise flagged, recorded as shortlisted by 'CSR_Rep', given a status
 * when it has none, and the whole list is saved.
 */
module SaveShortlist {
  import opened PyValue
  import opened Seqs
  import ViewRequest
  import Shortlist

  const IdRequired := "Error: Request ID is required."
  const NoLoader := "Error: load_requests function not provided."
  const NoSaver := "Error: save_requests function not provided."
  const Rep := "CSR_Rep"

  function Already(requestId: Value): string {
    "Error: Request '" + Str(requestId) + "' is already shortlisted."
  }

  function SavedMessage(requestId: Value): string {
    "Request '" + Str(requestId) + "' saved to shortlist successfully."
  }

  function SaveFailed(e: string): string {
    "Error saving shortlist update: " + e
  }

  function StripPart(v: string): string { Strip(v) }

  predicate NonBlank(v: string) { !Blank(v) }

  /** `[v.strip() for v in value.split(',') if v.strip()]` */
  function Owners(value: string): seq<string> {
    MapSeq(Filter(Split(value, ','), NonBlank), StripPart)
  }

  function AsValues(names: seq<string>): seq<Value> {
    MapSeq(names, (n: string) => VStr(n))
  }

  /** The new 'shortlisted_by' given the old one, as the three branches write it. */
  function MergeOwner(v: Value): Value {
    if v.VList? then
      if PyIn(VStr(Rep), v.items) then v else VList(v.items + [VStr(Rep)])
    else if v.VStr? && !Blank(v.s) then
      var current := Owners(v.s);
      VList(AsValues(if Rep in current then current else current + [Rep]))
    else VList([VStr(Rep)])
  }

  /** The writes made to the request once it is known not to be shortlisted. */
  function Mark(r: Record): Record {
    var r1 := r["shortlisted" := VBool(true)];
    var r2 := r1["shortlisted_by" := if "shortlisted_by" in r1 then MergeOwner(r1["shortlisted_by"]) else VList([VStr(Rep)])];
    r2["status" := Or(Get(r2, "status"), VStr("Shortlisted"))]
  }

  /**
   * `Request.saveRequestSL`.  `saved` is the list handed to the save function:
   * the loaded list with the found request marked in place.
   */
  method EntitySaveRequestSL(requestId: Value, all: seq<Record>, canSave: bool, saveError: Option<string>)
    returns (res: Outcome<string>, saved: Option<seq<Record>>)
    ensures var k := FirstIndex(all, ViewRequest.Matcher(requestId));
      if !ViewRequest.Found(all, k) then res == Err(ViewRequest.NotFound(requestId)) && saved == None
      else if Shortlist.IsShortlisted(all[k.value]) then res == Err(Already(requestId)) && saved == None
      else if !canSave then res == Err(NoSaver) && saved == None
      else saved == Some(all[k.value := Mark(all[k.value])]) &&
           res == (if saveError.Some? then Err(SaveFailed(saveError.value)) else Ok(SavedMessage(requestId)))
  {
    var k := ViewRequest.FindRequest(all, requestId);
    if !ViewRequest.Found(all, k) {
      return Err(ViewRequest.NotFound(requestId)), None;
    }
    var found := all[k.value];
    var already := Shortlist.ShortlistSignal(found);
    if already {
      return Err(Already(requestId)), None;
    }
    var marked := Mark(found);
    var rest := all[k.value := marked];
    if !canSave {
      return Err(NoSaver), None;
    }
    saved := Some(rest);
    res := if saveError.Some? then Err(SaveFailed(saveError.value)) else Ok(SavedMessage(requestId));
  }

  /** `SaveRequestSLController.saveRequestSL`: the id, the loader and the saver are checked first. */
  method SaveRequestSL(requestId: Value, loaded: Option<seq<Record>>, canSave: bool, saveError: Option<string>)
    returns (res: Outcome<string>, saved: Option<seq<Record>>)
    ensures ViewRequest.MissingId(requestId) ==> res == Err(IdRequired) && saved == None
    ensures !ViewRequest.MissingId(requestId) && loaded.None? ==> res == Err(NoLoader) && saved == None
    ensures !ViewRequest.MissingId(requestId) && loaded.Some? && !canSave ==> res == Err(NoSaver) && saved == None
    ensures res.Ok? ==> (
      loaded.Some? && saved.Some? &&
      var all := loaded.value;
      var k := FirstIndex(all, ViewRequest.Matcher(requestId));
      ViewRequest.Found(all, k) && !Shortlist.IsShortlisted(all[k.value]) &&
      saved.value == all[k.value := Mark(all[k.value])])
    ensures !ViewRequest.MissingId(requestId) && loaded.Some? && canSave ==>
      var k := FirstIndex(loaded.value, ViewRequest.Matcher(requestId));
      ViewRequest.Found(loaded.value, k) && Shortlist.IsShortlisted(loaded.value[k.value]) ==>
        res == Err(Already(requestId))
    ensures !ViewRequest.MissingId(requestId) && loaded.Some? && canSave ==>
      var all := loaded.value;
      var k := FirstIndex(all, ViewRequest.Matcher(requestId));
      if !ViewRequest.Found(all, k) then res == Err(ViewRequest.NotFound(requestId)) && saved == None
      else if Shortlist.IsShortlisted(all[k.value]) then res == Err(Already(requestId)) && saved == None
      else saved == Some(all[k.value := Mark(all[k.value])]) &&
           res == (if saveError.Some? then Err(SaveFailed(saveError.value)) else Ok(SavedMessage(requestId)))
  {
    if ViewRequest.MissingId(requestId) {
      return Err(IdRequired), None;
    }
    if loaded.None? {
      return Err(NoLoader), None;
    }
    if !canSave {
      return Err(NoSaver), None;
    }
    res, saved := EntitySaveRequestSL(requestId, loaded.value, canSave, saveError);
  }

  /** A marked request is shortlisted, so saving it a second time is refused. */
  lemma MarkedIsShortlisted(r: Record)
    ensures Shortlist.IsShortlisted(Mark(r))
  {
    assert Shortlist.FlagSet(Mark(r), Shortlist.FlagKeys[0]);
  }

  /**
   * Only a request that is not yet shortlisted is marked, and for such a
   * request 'shortlisted_by' can only be missing, an empty list, a blank
   * string or some other value, so it always ends up exactly ['CSR_Rep'].
   */
  lemma MarkWritesRepOnce(r: Record)
    requires !Shortlist.IsShortlisted(r)
    ensures Mark(r)["shortlisted_by"] == VList([VStr(Rep)])
    ensures Mark(r)["shortlisted"] == VBool(true)
  {
    if "shortlisted_by" in r {
      assert Shortlist.ListKeys[0] == "shortlisted_by";
      assert !Shortlist.Marks(r["shortlisted_by"]);
      var v := r["shortlisted_by"];
      if v.VList? {
        assert v.items == [];
        assert !PyIn(VStr(Rep), v.items);
      }
    }
  }

  /** A status that is present and truthy is kept; otherwise it becomes 'Shortlisted'.  Nothing else changes. */
  lemma MarkKeepsOthers(r: Record)
    ensures Truthy(Get(r, "status")) ==> Mark(r)["status"] == r["status"]
    ensures !Truthy(Get(r, "status")) ==> Mark(r)["status"] == VStr("Shortlisted")
    ensures forall k :: k in r && k != "shortlisted" && k != "shortlisted_by" && k != "status" ==>
      k in Mark(r) && Mark(r)[k] == r[k]
    ensures Mark(r).Keys == r.Keys + {"shortlisted", "shortlisted_by", "status"}
  {
  }

  /**
   * Saving the same id twice: the second lookup finds the request the first
   * one marked, and that request now counts as shortlisted.
   */
  lemma SecondSaveRefused(all: seq<Record>, requestId: Value)
    requires ViewRequest.Found(all, FirstIndex(all, ViewRequest.Matcher(requestId)))
    ensures var k := FirstIndex(all, ViewRequest.Matcher(requestId)).value;
      var all' := all[k := Mark(all[k])];
      FirstIndex(all', ViewRequest.Matcher(requestId)) == Some(k) &&
      ViewRequest.Found(all', Some(k)) && Shortlist.IsShortlisted(all'[k])
  {
    var k := FirstIndex(all, ViewRequest.Matcher(requestId)).value;
    var m := Mark(all[k]);
    assert "id" != "shortlisted" && "id" != "shortlisted_by" && "id" != "status";
    MarkKeepsOthers(all[k]);
    assert GetOr(m, "id", VStr("")) == GetOr(all[k], "id", VStr(""));
    assert ViewRequest.Matcher(requestId)(m);
    FirstIndexUpdate(all, ViewRequest.Matcher(requestId), k, m);
    MarkedIsShortlisted(all[k]);
    assert "shortlisted" in m;
  }
}
