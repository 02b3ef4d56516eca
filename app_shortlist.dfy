/**
 * The flat CSR shortlist of the JSON service (app.py): one global list of
 * "REQ-n" keys in the shortlist file, which the save route appends to and
 * the delete route rewrites as a set.  The CSR rows count a request as
 * shortlisted when its key is in that list.
 */
module AppShortlist {
  import opened PyValue
  import AppIds
  import AppCsrView

  /** The JSON reply: its status code, its `success` flag and its `message`. */
  datatype Answer = Answer(code: int, success: bool, message: string)

  /** A save answers and perhaps writes the list back, in order. */
  datatype Saved = Saved(answer: Answer, saved: Option<seq<string>>)

  /** A delete answers and perhaps writes the list back as a set, whose order is not modelled. */
  datatype Deleted = Deleted(answer: Answer, saved: Option<set<string>>)

  // ------------------------------------------------------------------ keys

  /**
   * The key the save route files a request under, as written:
   * `_req_id_to_string(_req_string_to_int(rid) or rid)`, where a request
   * number 0 is falsy and the path text is kept instead.
   */
  function SaveKeyAsWritten(rid: string): string {
    var n := AppIds.ReqStringToInt(VStr(rid));
    AppIds.ReqIdToString(if n.Some? && n.value != 0 then VInt(n.value) else VStr(rid))
  }

  /**
   * The key the delete route looks for, and the one the save route means:
   * the "REQ-n" form whenever the path reads as a request number, and the
   * path itself otherwise.
   */
  function ShortlistKey(rid: string): string {
    var n := AppIds.ReqStringToInt(VStr(rid));
    if n.Some? then AppIds.ReqIdToString(VInt(n.value)) else AppIds.ReqIdToString(VStr(rid))
  }

  /** The decimal form of a number never starts with "REQ-". */
  lemma NumberHasNoPrefix(n: int)
    ensures !HasReqPrefix(IntToString(n))
  {
    var s := IntToString(n);
    IntToStringShape(n);
    if n < 0 {
      assert Upper(s)[0] == '-';
    } else {
      NatToStringDigits(n);
      assert IsDigit(s[0]);
      assert Upper(s)[0] == s[0];
    }
  }

  /**
   * A request number keys the same entry however it is written: "n",
   * "REQ-n" or "req-n" all give "REQ-n".
   */
  lemma KeyCanonical(n: int)
    ensures ShortlistKey(IntToString(n)) == "REQ-" + IntToString(n)
    ensures ShortlistKey("REQ-" + IntToString(n)) == "REQ-" + IntToString(n)
    ensures ShortlistKey("req-" + IntToString(n)) == "REQ-" + IntToString(n)
  {
    NumberHasNoPrefix(n);
    AppIds.ReqPrefixIgnored(IntToString(n));
    ParseIntToString(n);
    AppIds.ReqIdRoundTrip(n);
  }

  /** A path that is no request number keys itself. */
  lemma KeyVerbatim(rid: string)
    requires AppIds.ReqStringToInt(VStr(rid)).None?
    ensures ShortlistKey(rid) == rid
  {
    if HasReqPrefix(rid) {
      var t := Strip(rid);
      assert Upper(rid)[0] == "REQ-"[0];
      assert rid[0] == 'R' || rid[0] == 'r';
      assert TrimStart(rid) == rid;
      TrimEndShape(rid);
      if t != [] {
        assert t[0] == rid[0];
      }
      assert ParseInt(rid).None?;
    }
  }

  /** The save route keys a request as the delete route does, except for request number 0. */
  lemma SaveKeyAgrees(rid: string)
    requires AppIds.ReqStringToInt(VStr(rid)) != Some(0)
    ensures SaveKeyAsWritten(rid) == ShortlistKey(rid)
  {
    if AppIds.ReqStringToInt(VStr(rid)).None? {
      KeyVerbatim(rid);
    }
  }

  /** "req-0" reads as request number 0. */
  lemma ZeroReads()
    ensures AppIds.ReqStringToInt(VStr("req-0")) == Some(0)
  {
    assert !HasReqPrefix("0");
    AppIds.ReqPrefixIgnored("0");
    NoSpaceStrips("0");
    assert AllDigits("0") && DigitsValue("0") == 0;
  }

  /** "req-0" is not itself an int literal. */
  lemma ZeroPathNoInt()
    ensures ParseInt("req-0").None?
  {
    var s := "req-0";
    assert forall i :: 0 <= i < |s| ==> !IsSpace(s[i]);
    NoSpaceStrips(s);
    assert !IsDigit(s[0]);
  }

  /** The save route files "req-0" under "req-0", while the delete route looks for "REQ-0". */
  lemma SaveKeyZeroDisagrees()
    ensures SaveKeyAsWritten("req-0") == "req-0"
    ensures ShortlistKey("req-0") == "REQ-0"
  {
    ZeroReads();
    ZeroPathNoInt();
    assert IntToString(0) == "0";
  }

  // ------------------------------------------------------------------ routes

  /** `csr_shortlist_save` on the loaded list under a given key. */
  function SaveIn(ids: seq<string>, key: string): Saved {
    if key in ids then Saved(Answer(409, false, "Error: Request '" + key + "' is already shortlisted."), None)
    else Saved(Answer(200, true, "Request '" + key + "' saved to shortlist."), Some(ids + [key]))
  }

  /** `csr_shortlist_save(rid)` as written, keying by `SaveKeyAsWritten`. */
  function SaveRouteAsWritten(ids: seq<string>, rid: string): Saved {
    SaveIn(ids, SaveKeyAsWritten(rid))
  }

  /** `csr_shortlist_save(rid)` keying by `ShortlistKey`, as the delete route does. */
  function SaveRoute(ids: seq<string>, rid: string): Saved {
    SaveIn(ids, ShortlistKey(rid))
  }

  /** `csr_shortlist_delete(rid)` on the loaded list. */
  function DeleteRoute(ids: seq<string>, rid: string): Deleted {
    var key := ShortlistKey(rid);
    if key in Members(ids) then Deleted(Answer(200, true, "Request '" + key + "' removed from shortlist."), Some(Members(ids) - {key}))
    else Deleted(Answer(200, true, "Request '" + key + "' was not in shortlist."), None)
  }

  /** `set(ids)`: the list as the delete route and the CSR rows read it. */
  function Members(ids: seq<string>): set<string> {
    set x | x in ids
  }

  /**
   * Saving a key already present answers 409 and writes nothing; otherwise
   * it appends the key once, keeping every earlier entry in place.  Both
   * `SaveRoute` and `SaveRouteAsWritten` are this step on their own key.
   */
  lemma SaveExact(ids: seq<string>, key: string)
    ensures var r := SaveIn(ids, key);
      (key in ids <==> r.saved.None?) &&
      (key in ids ==> r.answer == Answer(409, false, "Error: Request '" + key + "' is already shortlisted.")) &&
      (key !in ids ==>
         (r.answer.code == 200 && r.answer.success &&
          r.saved.value[..|ids|] == ids && |r.saved.value| == |ids| + 1 &&
          multiset(r.saved.value)[key] == 1 && key in r.saved.value))
  {
    if key !in ids {
      var s := ids + [key];
      assert s[..|ids|] == ids;
      assert multiset(s) == multiset(ids) + multiset{key};
    }
  }

  /** Saving the same key twice fails the second time, with nothing written. */
  lemma SaveTwice(ids: seq<string>, key: string)
    requires SaveIn(ids, key).saved.Some?
    ensures SaveIn(SaveIn(ids, key).saved.value, key).answer.code == 409
    ensures SaveIn(SaveIn(ids, key).saved.value, key).saved.None?
  {
    assert key in SaveIn(ids, key).saved.value;
  }

  /**
   * Deleting always succeeds; it writes back exactly when the key is
   * present, and then the file holds every other key once and the key no
   * more, duplicates gone.
   */
  lemma DeleteExact(ids: seq<string>, rid: string)
    ensures var key := ShortlistKey(rid); var r := DeleteRoute(ids, rid);
      r.answer.code == 200 && r.answer.success &&
      (key in ids <==> r.saved.Some?) &&
      (r.saved.Some? ==> key !in r.saved.value && forall x :: x in r.saved.value <==> x in ids && x != key)
  {
  }

  /** A second delete finds nothing to remove and writes nothing. */
  lemma DeleteIdempotent(ids: seq<string>, rid: string)
    requires DeleteRoute(ids, rid).saved.Some?
    ensures var once := DeleteRoute(ids, rid).saved.value;
      forall rest: seq<string> :: Members(rest) == once ==>
        DeleteRoute(rest, rid).saved.None? &&
        DeleteRoute(rest, rid).answer.message == "Request '" + ShortlistKey(rid) + "' was not in shortlist."
  {
  }

  /** Deleting what was just saved leaves the file holding what it held before. */
  lemma SaveThenDelete(ids: seq<string>, rid: string)
    requires SaveRoute(ids, rid).saved.Some?
    ensures DeleteRoute(SaveRoute(ids, rid).saved.value, rid).saved == Some(Members(ids))
  {
    var key := ShortlistKey(rid);
    var after := ids + [key];
    assert key in after;
    assert Members(after) - {key} == Members(ids);
  }

  /** As written, a save of "req-0" into an empty list cannot be undone: the delete finds nothing and the entry stays. */
  lemma ZeroSaveStays()
    ensures SaveRouteAsWritten([], "req-0").saved == Some(["req-0"])
    ensures DeleteRoute(["req-0"], "req-0").saved.None?
  {
    SaveKeyZeroDisagrees();
    var none: seq<string> := [];
    assert SaveKeyAsWritten("req-0") !in none;
    assert none + ["req-0"] == ["req-0"];
    assert "REQ-0" !in ["req-0"];
  }

  /**
   * Once a request number is saved, the CSR row of a request stored under
   * that number counts it as shortlisted.
   */
  lemma SavedRowCounts(ids: seq<string>, rid: string, rec: Record, index: map<string, Record>, now: string, n: int)
    requires AppIds.ReqStringToInt(VStr(rid)) == Some(n)
    requires Get(rec, "id") == VInt(n)
    requires SaveRoute(ids, rid).saved.Some?
    ensures var row := AppCsrView.MapRow(rec, index, Members(SaveRoute(ids, rid).saved.value), now);
      row.Some? ==> row.value.shortlistCount == 1
  {
    var after := SaveRoute(ids, rid).saved.value;
    AppCsrView.MapRowExact(rec, index, Members(after), now);
    assert ShortlistKey(rid) in after;
    assert AppIds.ReqIdToString(Get(rec, "id")) == ShortlistKey(rid);
  }
}
