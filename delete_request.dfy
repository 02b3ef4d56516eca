/**
 * A PIN deletes a request (UserStory16): the controller checks the id and
 * finds the record with the shared lookup, the entity pops it from the list
 * and saves what is left.
 */
module DeleteRequest {
  import opened PyValue
  import opened Seqs
  import ViewRequest
  import CreateRequest

  const IdRequired := "Error: Request ID is required."
  const NoLoader := "Error: load_requests function not provided."
  const NoSaver := "Error: save_requests function not provided."
  const CannotDelete := "Error: Unable to delete request."

  function SaveFailed(e: string): string {
    "Error saving after deletion: " + e
  }

  function Deleted(requestId: Value): string {
    "Request '" + Str(requestId) + "' deleted successfully."
  }

  /** `s.pop(k)`: the list without its element at `k`. */
  function RemoveAt<T>(s: seq<T>, k: nat): (r: seq<T>)
    requires k < |s|
    ensures |r| == |s| - 1
    ensures forall j :: 0 <= j < k ==> r[j] == s[j]
    ensures forall j :: k <= j < |r| ==> r[j] == s[j + 1]
  {
    s[..k] + s[k + 1..]
  }

  /** Popping removes exactly one copy of the element and keeps all the others. */
  lemma RemoveAtMultiset<T>(s: seq<T>, k: nat)
    requires k < |s|
    ensures multiset(RemoveAt(s, k)) == multiset(s) - multiset{s[k]}
  {
    assert s == s[..k] + [s[k]] + s[k + 1..];
  }

  /**
   * `Request.deleteRequest`.  An index below zero is refused; one past the
   * end makes `pop` raise.  `saved` is the list handed to the save function.
   */
  method EntityDeleteRequest(requestId: Value, all: seq<Record>, index: int, canSave: bool,
                             saveError: Option<string>)
    returns (res: Outcome<string>, saved: Option<seq<Record>>)
    ensures index < 0 ==> res == Err(CannotDelete) && saved == None
    ensures index >= |all| ==> res == Raised && saved == None
    ensures 0 <= index < |all| && !canSave ==> res == Err(NoSaver) && saved == None
    ensures 0 <= index < |all| && canSave ==>
      saved == Some(RemoveAt(all, index)) &&
      res == (if saveError.Some? then Err(SaveFailed(saveError.value)) else Ok(Deleted(requestId)))
  {
    if index < 0 {
      return Err(CannotDelete), None;
    }
    if index >= |all| {
      return Raised, None;
    }
    var rest := all[..index] + all[index + 1..];
    if !canSave {
      return Err(NoSaver), None;
    }
    saved := Some(rest);
    res := if saveError.Some? then Err(SaveFailed(saveError.value)) else Ok(Deleted(requestId));
  }

  /** `DeleteRequestController.deleteRequest` */
  method DeleteRequest(requestId: Value, loaded: Option<seq<Record>>, canSave: bool, saveError: Option<string>)
    returns (res: Outcome<string>, saved: Option<seq<Record>>)
    ensures !Truthy(requestId) ==> res == Err(IdRequired) && saved == None
    ensures Truthy(requestId) && loaded.None? ==> res == Err(NoLoader) && saved == None
    ensures Truthy(requestId) && loaded.Some? ==>
      var all := loaded.value;
      var k := FirstIndex(all, ViewRequest.Matcher(requestId));
      if !ViewRequest.Found(all, k) then res == Err(ViewRequest.NotFound(requestId)) && saved == None
      else if !canSave then res == Err(NoSaver) && saved == None
      else saved == Some(RemoveAt(all, k.value)) &&
           res == (if saveError.Some? then Err(SaveFailed(saveError.value)) else Ok(Deleted(requestId)))
  {
    if !Truthy(requestId) {
      return Err(IdRequired), None;
    }
    if loaded.None? {
      return Err(NoLoader), None;
    }
    var k := ViewRequest.FindRequest(loaded.value, requestId);
    if !ViewRequest.Found(loaded.value, k) {
      return Err(ViewRequest.NotFound(requestId)), None;
    }
    res, saved := EntityDeleteRequest(requestId, loaded.value, k.value, canSave, saveError);
  }

  /**
   * Only a falsy id is refused, so a blank id such as "  " is looked up as
   * the empty string and matches the first record that has no id.
   */
  lemma BlankIdMatchesIdless(r: Record)
    requires "id" !in r
    ensures Truthy(VStr("  "))
    ensures ViewRequest.MatchesQuery(r, VStr("  "))
  {
    assert Strip("") == "" by { NoSpaceStrips(""); }
    assert Strip("  ") == "" by {
      assert TrimStart("  ") == TrimStart(" ");
    }
  }

  /**
   * Generated ids come from the list length, so once any record but the last
   * is deleted, the next generated id repeats the id of the last record when
   * that one was itself created with a generated id.
   */
  lemma DeleteThenCreateRepeatsId(all: seq<Record>, k: nat, d0: CreateRequest.Draft, t0: string,
                                  d: CreateRequest.Draft, now: string)
    requires k + 1 < |all|
    requires !Truthy(d0.requestId) && !Truthy(d.requestId)
    requires all[|all| - 1] == CreateRequest.NewRecord(d0, |all| - 1, t0)
    ensures var rest := RemoveAt(all, k);
      rest[|rest| - 1] == all[|all| - 1] &&
      CreateRequest.NewRecord(d, |rest|, now)["id"] == rest[|rest| - 1]["id"]
  {
  }
}
