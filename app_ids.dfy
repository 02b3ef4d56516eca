/**
 * The converters and id generators of the JSON service (app.py): account
 * status between the file's and the UI's spelling, the role normaliser,
 * request ids between "REQ-n" and n, and the next request and category ids.
 */
module AppIds {
  import opened PyValue
  import MaxAppIds

  // ------------------------------------------------------------------ status and role

  /** `ui_status_to_file`: None where a truthy non-str has no `strip`. */
  function UiStatusToFile(statusUi: Value): Option<string> {
    match TextOr(statusUi, "")
    case None => None
    case Some(t) =>
      var s := Lower(Strip(t));
      Some(if s == "active" then "Active" else if s == "inactive" || s == "suspended" then "Suspended" else "Active")
  }

  /** `file_status_to_ui` */
  function FileStatusToUi(statusFile: Value): Option<string> {
    match TextOr(statusFile, "")
    case None => None
    case Some(t) =>
      var s := Lower(Strip(t));
      Some(if s == "active" then "active" else if s == "suspended" || s == "inactive" then "inactive" else "active")
  }

  /** `normalize_role`: trimmed and lower-cased, with 'user' read as 'pin'. */
  function NormalizeRole(role: Value): Option<string> {
    match TextOr(role, "")
    case None => None
    case Some(t) =>
      var s := Lower(Strip(t));
      Some(if s == "user" then "pin" else s)
  }

  /** The text a converter compares: trimmed, lower-cased. */
  function Folded(s: string): string {
    Lower(Strip(s))
  }

  /**
   * The file spelling is 'Active' or 'Suspended'; 'inactive' and
   * 'suspended' in any case and with any blanks become 'Suspended', every
   * other str 'Active'.
   */
  lemma UiStatusToFileCases(s: string)
    ensures UiStatusToFile(VStr(s)) == Some(if Folded(s) == "inactive" || Folded(s) == "suspended" then "Suspended" else "Active")
  {
  }

  /** The UI spelling is 'active' or 'inactive', the same split read the other way. */
  lemma FileStatusToUiCases(s: string)
    ensures FileStatusToUi(VStr(s)) == Some(if Folded(s) == "inactive" || Folded(s) == "suspended" then "inactive" else "active")
  {
  }

  /**
   * Writing a UI status to the file and reading it back gives 'inactive'
   * exactly for the suspended spellings and 'active' otherwise; in
   * particular 'active' and 'inactive' come back as they went in.
   */
  lemma UiFileRoundTrip(s: string)
    ensures var f := UiStatusToFile(VStr(s)).value;
      FileStatusToUi(VStr(f)) == Some(if Folded(s) == "inactive" || Folded(s) == "suspended" then "inactive" else "active")
    ensures Folded(s) == "active" || Folded(s) == "inactive" ==>
      FileStatusToUi(VStr(UiStatusToFile(VStr(s)).value)) == Some(Folded(s))
  {
    var f := UiStatusToFile(VStr(s)).value;
    if f == "Active" {
      FoldedActive();
    } else {
      FoldedSuspended();
    }
  }

  /** Reading a file status for the UI and writing it back gives the file's two spellings in the same split. */
  lemma FileUiRoundTrip(s: string)
    ensures var u := FileStatusToUi(VStr(s)).value;
      UiStatusToFile(VStr(u)) == Some(if Folded(s) == "inactive" || Folded(s) == "suspended" then "Suspended" else "Active")
  {
    FileStatusToUiCases(s);
    if Folded(s) == "inactive" || Folded(s) == "suspended" {
      FoldedLowerWord("inactive");
      UiStatusToFileCases("inactive");
    } else {
      FoldedLowerWord("active");
      UiStatusToFileCases("active");
    }
  }

  lemma FoldedActive()
    ensures Folded("Active") == "active"
  {
    NoSpaceStrips("Active");
  }

  lemma FoldedSuspended()
    ensures Folded("Suspended") == "suspended"
  {
    NoSpaceStrips("Suspended");
  }

  lemma FoldedLowerWord(s: string)
    requires forall i :: 0 <= i < |s| ==> IsLowerCase(s[i])
    ensures Folded(s) == s
  {
    NoSpaceStrips(s);
    LowerNoUpper(s);
  }

  /** Trimming and lower-casing twice is doing it once. */
  lemma FoldedIdempotent(t: string)
    ensures Folded(Folded(t)) == Folded(t)
  {
    StripIdempotent(t);
    LowerOfStripped(Strip(t));
    LowerIdempotent(Strip(t));
  }

  /** Falsy input is the empty role; normalising twice changes nothing, and no result reads 'user'. */
  lemma NormalizeRoleIdempotent(role: Value)
    ensures !Truthy(role) ==> NormalizeRole(role) == Some("")
    ensures NormalizeRole(role).Some? ==>
      NormalizeRole(role).value != "user" &&
      NormalizeRole(VStr(NormalizeRole(role).value)) == NormalizeRole(role)
  {
    if NormalizeRole(role).Some? {
      var t := TextOr(role, "").value;
      FoldedIdempotent(t);
      FoldedLowerWord("pin");
    }
  }

  // ------------------------------------------------------------------ request ids

  /** `_req_id_to_string`: "REQ-" and the int, or `str()` of what `int()` refuses. */
  function ReqIdToString(reqId: Value): string {
    match PyInt(reqId)
    case Some(n) => "REQ-" + IntToString(n)
    case None => Str(reqId)
  }

  /**
   * `_req_string_to_int`: an int (a bool counts as one) as it is; otherwise
   * `int()` of the text after "REQ-" in any case, or of the whole text.
   */
  function ReqStringToInt(sid: Value): Option<int> {
    match sid
    case VInt(i) => Some(i)
    case VBool(b) => Some(if b then 1 else 0)
    case _ =>
      var s := Str(sid);
      if HasReqPrefix(s) then
        ReqPrefixAfterFirst(s);
        ParseInt(AfterFirst(s, '-'))
      else ParseInt(s)
  }

  /** Every integer survives the trip to its "REQ-n" form and back. */
  lemma ReqIdRoundTrip(n: int)
    ensures ReqIdToString(VInt(n)) == "REQ-" + IntToString(n)
    ensures ReqStringToInt(VStr(ReqIdToString(VInt(n)))) == Some(n)
  {
    var s := "REQ-" + IntToString(n);
    MaxAppIds.UpperReqPrefix(IntToString(n));
    ReqPrefixAfterFirst(s);
    assert s[4..] == IntToString(n);
    ParseIntToString(n);
  }

  /**
   * A "REQ-" prefix, in either case, adds nothing: the id reads as the text
   * after it would on its own.
   */
  lemma ReqPrefixIgnored(t: string)
    requires !HasReqPrefix(t)
    ensures ReqStringToInt(VStr(t)) == ParseInt(t)
    ensures ReqStringToInt(VStr("REQ-" + t)) == ParseInt(t)
    ensures ReqStringToInt(VStr("req-" + t)) == ParseInt(t)
  {
    MaxAppIds.UpperReqPrefix(t);
    ReqPrefixAfterFirst("REQ-" + t);
    assert ("REQ-" + t)[4..] == t;
    var l := "req-" + t;
    assert Upper(l)[..4] == "REQ-" by {
      assert Upper(l)[0] == 'R' && Upper(l)[1] == 'E' && Upper(l)[2] == 'Q' && Upper(l)[3] == '-';
    }
    ReqPrefixAfterFirst(l);
    assert l[4..] == t;
  }

  // ------------------------------------------------------------------ next request id

  /** `[int(r.get("id", 0)) for r in reqs]`; None where one `int()` raises. */
  function StoredIds(reqs: seq<Record>): Option<seq<int>>
    decreases |reqs|
  {
    if reqs == [] then Some([])
    else
      match (StoredIds(reqs[..|reqs| - 1]), PyInt(GetOr(reqs[|reqs| - 1], "id", VInt(0))))
      case (Some(ids), Some(n)) => Some(ids + [n])
      case _ => None
  }

  function Max(xs: seq<int>): (m: int)
    requires xs != []
    ensures forall i :: 0 <= i < |xs| ==> xs[i] <= m
    ensures exists i :: 0 <= i < |xs| && xs[i] == m
    decreases |xs|
  {
    if |xs| == 1 then xs[0]
    else
      var rest := Max(xs[1..]);
      assert forall i :: 1 <= i < |xs| ==> xs[i] == xs[1..][i - 1];
      if xs[0] >= rest then xs[0] else rest
  }

  /** `_next_req_id`: 1 + the largest stored id, or 1 with none; None where an id is not an int. */
  function NextReqId(reqs: seq<Record>): Option<int> {
    match StoredIds(reqs)
    case None => None
    case Some(ids) => Some(1 + (if ids == [] then 0 else Max(ids)))
  }

  lemma {:induction false} StoredIdsExact(reqs: seq<Record>)
    ensures StoredIds(reqs).Some? <==> forall j :: 0 <= j < |reqs| ==> PyInt(GetOr(reqs[j], "id", VInt(0))).Some?
    ensures StoredIds(reqs).Some? ==>
      |StoredIds(reqs).value| == |reqs| &&
      forall j :: 0 <= j < |reqs| ==> PyInt(GetOr(reqs[j], "id", VInt(0))) == Some(StoredIds(reqs).value[j])
    decreases |reqs|
  {
    if reqs != [] {
      var init := reqs[..|reqs| - 1];
      StoredIdsExact(init);
      assert forall j :: 0 <= j < |init| ==> init[j] == reqs[j];
    }
  }

  /**
   * The next request id is 1 on an empty list and otherwise one more than
   * the largest stored id, so it differs from every stored id; it is None
   * exactly when some stored id is not an int.
   */
  lemma NextReqIdFresh(reqs: seq<Record>)
    ensures reqs == [] ==> NextReqId(reqs) == Some(1)
    ensures NextReqId(reqs).None? <==> exists j :: 0 <= j < |reqs| && PyInt(GetOr(reqs[j], "id", VInt(0))).None?
    ensures NextReqId(reqs).Some? ==>
      var n := NextReqId(reqs).value;
      (forall j :: 0 <= j < |reqs| ==> PyInt(GetOr(reqs[j], "id", VInt(0))).value < n) &&
      (reqs != [] ==> exists j :: 0 <= j < |reqs| && PyInt(GetOr(reqs[j], "id", VInt(0))).value == n - 1)
  {
    StoredIdsExact(reqs);
    if NextReqId(reqs).Some? && reqs != [] {
      var ids := StoredIds(reqs).value;
      var i :| 0 <= i < |ids| && ids[i] == Max(ids);
      assert PyInt(GetOr(reqs[i], "id", VInt(0))).value == NextReqId(reqs).value - 1;
    }
  }

  // ------------------------------------------------------------------ next category id

  /** `str(c.get("id","")).split("-")[-1]` */
  function Suffix(c: Record): string {
    AfterLast(Str(GetOr(c, "id", VStr(""))), '-')
  }

  /** `int(part)` of the suffix; None where it raises and the loop moves on. */
  function SuffixNum(c: Record): Option<int> {
    ParseInt(Suffix(c))
  }

  /**
   * The accumulator of `_next_cat_id`, for any reading `num` of a category:
   * the largest number read, and never below 0.
   */
  function MaxRead(cats: seq<Record>, num: Record -> Option<int>): nat
    decreases |cats|
  {
    if cats == [] then 0
    else
      var m := MaxRead(cats[..|cats| - 1], num);
      match num(cats[|cats| - 1])
      case Some(n) => if n > m then n else m
      case None => m
  }

  function MaxSuffix(cats: seq<Record>): nat {
    MaxRead(cats, SuffixNum)
  }

  /** `_next_cat_id`: "CAT-" and the next number, zero-padded to three digits. */
  function CatId(cats: seq<Record>): string {
    "CAT-" + Pad3(MaxSuffix(cats) + 1)
  }

  /** `_next_cat_id`: the loop that keeps the largest suffix, skipping the ones that raise. */
  method NextCatId(cats: seq<Record>) returns (id: string)
    ensures id == CatId(cats)
  {
    var maxNum: nat := 0;
    var i := 0;
    while i < |cats|
      invariant 0 <= i <= |cats|
      invariant maxNum == MaxRead(cats[..i], SuffixNum)
    {
      MaxReadStep(cats, i, SuffixNum);
      var num := SuffixNum(cats[i]);
      if num.Some? && num.value > maxNum {
        maxNum := num.value;
      }
      i := i + 1;
    }
    assert cats[..|cats|] == cats;
    id := "CAT-" + Pad3(maxNum + 1);
  }

  lemma MaxReadStep(cats: seq<Record>, i: nat, num: Record -> Option<int>)
    requires i < |cats|
    ensures MaxRead(cats[..i + 1], num) ==
      if num(cats[i]).Some? && num(cats[i]).value > MaxRead(cats[..i], num) then num(cats[i]).value
      else MaxRead(cats[..i], num)
  {
    assert cats[..i + 1][..i] == cats[..i];
  }

  /** One more record read: the maximum moves up to its number when that is larger. */
  lemma MaxReadSnoc(s: seq<Record>, x: Record, num: Record -> Option<int>)
    ensures MaxRead(s + [x], num) ==
      if num(x).Some? && num(x).value > MaxRead(s, num) then num(x).value else MaxRead(s, num)
  {
    assert (s + [x])[..|s|] == s;
  }

  /** The maximum is 0 or the number read from one of the records. */
  lemma {:induction false} MaxReadAttained(cats: seq<Record>, num: Record -> Option<int>)
    ensures MaxRead(cats, num) == 0 ||
      exists j :: 0 <= j < |cats| && num(cats[j]) == Some(MaxRead(cats, num) as int)
    decreases |cats|
  {
    if cats != [] {
      var init := cats[..|cats| - 1];
      MaxReadAttained(init, num);
      if MaxRead(cats, num) != 0 && MaxRead(cats, num) == MaxRead(init, num) {
        var j :| 0 <= j < |init| && num(init[j]) == Some(MaxRead(init, num) as int);
        assert cats[j] == init[j];
      }
    }
  }

  /** Every number read is at most the accumulated maximum. */
  lemma {:induction false} MaxReadBound(cats: seq<Record>, num: Record -> Option<int>)
    ensures forall j :: 0 <= j < |cats| && num(cats[j]).Some? ==> num(cats[j]).value <= MaxRead(cats, num)
    decreases |cats|
  {
    if cats != [] {
      var init := cats[..|cats| - 1];
      MaxReadBound(init, num);
      forall j | 0 <= j < |cats| && num(cats[j]).Some?
        ensures num(cats[j]).value <= MaxRead(cats, num)
      {
        if j < |init| {
          assert cats[j] == init[j];
        }
      }
    }
  }

  /** The text after the last '-' of `a + "-" + b` is `b` when `b` has no '-'. */
  lemma {:induction false} AfterLastDash(a: string, b: string)
    requires '-' !in b
    ensures AfterLast(a + "-" + b, '-') == b
    decreases |a|
  {
    var s := a + "-" + b;
    assert s[|a|] == '-';
    var k := IndexOf(s, '-');
    if k == |a| {
      assert s[k + 1..] == b;
    } else {
      assert k < |a|;
      assert s[k + 1..] == a[k + 1..] + "-" + b;
      AfterLastDash(a[k + 1..], b);
    }
  }

  /** The suffix of "CAT-" and a padded number reads back as that number. */
  lemma CatSuffixReads(m: nat)
    ensures ParseInt(AfterLast("CAT-" + Pad3(m), '-')) == Some(m)
  {
    ParsePad3(m);
    AfterLastDash("CAT", Pad3(m));
    assert "CAT-" + Pad3(m) == "CAT" + "-" + Pad3(m);
  }

  lemma NotCatId(c: Record, m: nat)
    requires SuffixNum(c).Some? ==> SuffixNum(c).value < m
    ensures Str(GetOr(c, "id", VStr(""))) != "CAT-" + Pad3(m)
  {
    CatSuffixReads(m);
  }

  /**
   * The new category id's number (one more than the largest numeric
   * suffix) reads back from it, and it differs from every existing id,
   * since that one's suffix would have to read as a larger number.
   */
  lemma CatIdFresh(cats: seq<Record>)
    ensures ParseInt(AfterLast(CatId(cats), '-')) == Some(MaxSuffix(cats) + 1)
    ensures forall j :: 0 <= j < |cats| ==> Str(GetOr(cats[j], "id", VStr(""))) != CatId(cats)
  {
    var m := MaxSuffix(cats) + 1;
    CatSuffixReads(m);
    MaxReadBound(cats, SuffixNum);
    forall j | 0 <= j < |cats| ensures Str(GetOr(cats[j], "id", VStr(""))) != CatId(cats) {
      NotCatId(cats[j], m);
    }
  }

  /** `_next_cat_id` of an empty list is "CAT-001". */
  lemma CatIdExamples()
    ensures CatId([]) == "CAT-001"
  {
    assert NatToString(1) == "1";
    assert Pad3(1) == "001";
  }
}
