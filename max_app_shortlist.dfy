/**
 * The per-CSR shortlist of the combined service (Max_app.py): a ledger
 * from each CSR's name to the request ids they saved, kept beside the
 * legacy per-request fields `shortlisted_by` and `shortlisted`.  The routes
 * take the loaded ledger and request list; what they save is returned as
 * out-parameters (None when that save is not reached).
 */
module MaxAppShortlist {
  import opened PyValue
  import opened Seqs
  import opened MaxAppIds

  const NotAuthenticated := "Not authenticated"
  const AlreadyShortlisted := "Already shortlisted"
  const SavedMsg := "Saved to your shortlist"
  const RemovedMsg := "Removed from your shortlist"
  const AlreadyNotIn := "Already not in your shortlist"

  /** The shortlist file: each CSR's name to the ids they saved, in saving order. */
  type Ledger = map<string, seq<string>>

  /** `sl.get(me, [])` */
  function Mine(sl: Ledger, me: string): seq<string> {
    if me in sl then sl[me] else []
  }

  /** The `rid` of save and remove: the id itself when it starts with "REQ-" in any case, else "REQ-" in front. */
  function ShortlistId(requestId: string): string {
    if HasReqPrefix(requestId) then requestId else "REQ-" + requestId
  }

  /** `str(r.get('id')) == rid or str(r.get('id')) == rid.replace('REQ-','')` */
  predicate RidMatch(r: Record, rid: string) {
    Str(Get(r, "id")) == rid || Str(Get(r, "id")) == DeleteAll(rid, "REQ-")
  }

  function RidOn(rid: string): Record -> bool {
    (r: Record) => RidMatch(r, rid)
  }

  // ------------------------------------------------------------------ sorted name sets

  /** Sorted with no repeats, as `sorted(set(...))` is. */
  predicate StrictlySorted(s: seq<string>) {
    forall i, j :: 0 <= i < j < |s| ==> LexLess(s[i], s[j])
  }

  /** `x` put into its place in a strictly sorted list, unless it is there already. */
  function InsertName(s: seq<string>, x: string): seq<string>
    decreases |s|
  {
    if s == [] then [x]
    else if s[0] == x then s
    else if LexLess(x, s[0]) then [x] + s
    else [s[0]] + InsertName(s[1..], x)
  }

  /** `sorted(set(names))` */
  function SortedNames(names: seq<string>): seq<string>
    decreases |names|
  {
    if names == [] then []
    else InsertName(SortedNames(names[..|names| - 1]), names[|names| - 1])
  }

  lemma {:induction false} InsertNameSorted(s: seq<string>, x: string)
    requires StrictlySorted(s)
    ensures StrictlySorted(InsertName(s, x))
    ensures forall y :: y in InsertName(s, x) <==> y in s || y == x
    decreases |s|
  {
    if s == [] || s[0] == x {
    } else if LexLess(x, s[0]) {
      var t := [x] + s;
      forall i, j | 0 <= i < j < |t| ensures LexLess(t[i], t[j]) {
        if i == 0 && j > 1 {
          LexTransitive(x, s[0], s[j - 1]);
        }
      }
    } else {
      LexTrichotomy(x, s[0]);
      var rest := s[1..];
      InsertNameSorted(rest, x);
      var u := InsertName(rest, x);
      var t := [s[0]] + u;
      forall j | 0 <= j < |u| ensures LexLess(s[0], u[j]) {
        assert u[j] in u;
        if u[j] != x {
          var m :| 0 <= m < |rest| && rest[m] == u[j];
          assert s[m + 1] == u[j];
        }
      }
      forall i, j | 0 <= i < j < |t| ensures LexLess(t[i], t[j]) {
        if i > 0 {
          assert t[i] == u[i - 1] && t[j] == u[j - 1];
        }
      }
      assert InsertName(s, x) == t;
      assert s == [s[0]] + rest;
    }
  }

  /** `sorted(set(names))` is sorted, has no repeats and holds exactly the names. */
  lemma {:induction false} SortedNamesExact(names: seq<string>)
    ensures StrictlySorted(SortedNames(names))
    ensures forall y :: y in SortedNames(names) <==> y in names
    decreases |names|
  {
    if names != [] {
      var init := names[..|names| - 1];
      SortedNamesExact(init);
      InsertNameSorted(SortedNames(init), names[|names| - 1]);
      assert names == init + [names[|names| - 1]];
    }
  }

  // ------------------------------------------------------------------ the request's legacy fields

  /** The one-character strings of `s`, as iterating a str gives them. */
  function Chars(s: string): seq<string> {
    seq(|s|, i requires 0 <= i < |s| => [s[i]])
  }

  function StrValues(s: seq<string>): seq<Value> {
    seq(|s|, i requires 0 <= i < |s| => VStr(s[i]))
  }

  /**
   * The names `set(v or [])` holds, when a str can be added and the whole
   * sorted: None where a truthy non-sequence, or an element that is not a
   * str, makes `set()` or `sorted()` raise.
   */
  function NameSet(v: Value): Option<seq<string>> {
    if !Truthy(v) then Some([])
    else
      match v
      case VStr(s) => Some(Chars(s))
      case VList(xs) =>
        if forall i :: 0 <= i < |xs| ==> xs[i].VStr? then Some(seq(|xs|, i requires 0 <= i < |xs| => xs[i].s))
        else None
      case _ => None
  }

  /** The request after save marks it: `shortlisted_by = sorted(set(by) | {me})`, `shortlisted = True`. */
  function SavedMark(r: Record, me: string): Option<Record> {
    match NameSet(Get(r, "shortlisted_by"))
    case None => None
    case Some(names) =>
      Some(r["shortlisted_by" := VList(StrValues(SortedNames(names + [me])))]["shortlisted" := VBool(true)])
  }

  function SavedOn(me: string): Record -> Option<Record> {
    (r: Record) => SavedMark(r, me)
  }

  /** `list(v or [])`; None where `list()` raises on a truthy value that is not a sequence. */
  function ListOf(v: Value): Option<seq<Value>> {
    if !Truthy(v) then Some([])
    else
      match v
      case VList(xs) => Some(xs)
      case VStr(s) => Some(StrValues(Chars(s)))
      case _ => None
  }

  /** The request after remove unmarks it: one `me` taken out, `shortlisted` = anything left. */
  function RemovedMark(r: Record, me: string): Option<Record> {
    match ListOf(Get(r, "shortlisted_by"))
    case None => None
    case Some(arr) =>
      var left := RemoveFirst(arr, VStr(me));
      Some(r["shortlisted_by" := VList(left)]["shortlisted" := VBool(left != [])])
  }

  function RemovedOn(me: string): Record -> Option<Record> {
    (r: Record) => RemovedMark(r, me)
  }

  /** The request list after the first record `p` accepts is rewritten by `mark`; None where `mark` raises. */
  function MarkedList(reqs: seq<Record>, p: Record -> bool, mark: Record -> Option<Record>): Option<seq<Record>> {
    match FirstIndex(reqs, p)
    case None => Some(reqs)
    case Some(k) =>
      match mark(reqs[k])
      case None => None
      case Some(x) => Some(reqs[k := x])
  }

  // ------------------------------------------------------------------ routes

  /** A route's answer, the ledger it saves and the request list it saves. */
  datatype Answer = Answer(result: Outcome<string>, ledger: Option<Ledger>, requests: Option<seq<Record>>)

  /** The tail both routes share: the ledger is saved, then the marked request list, then the reply. */
  function Finish(ledger: Ledger, marked: Option<seq<Record>>, msg: string): Answer {
    match marked
    case None => Answer(Raised, Some(ledger), None)
    case Some(rs) => Answer(Ok(msg), Some(ledger), Some(rs))
  }

  /** The specification of `csr_shortlist_save`. */
  function ShortlistSave(sl: Ledger, reqs: seq<Record>, s: Session, requestId: string): Answer {
    if !HasRole(s, "csr") then Answer(Err(NotAuthenticated), None, None)
    else
      var me := Caller(s, "");
      var rid := ShortlistId(requestId);
      var current := Mine(sl, me);
      if rid in current then Answer(Ok(AlreadyShortlisted), None, None)
      else Finish(sl[me := current + [rid]], MarkedList(reqs, RidOn(rid), SavedOn(me)), SavedMsg)
  }

  function NotId(rid: string): string -> bool {
    (x: string) => x != rid
  }

  /** The specification of `csr_shortlist_remove`. */
  function ShortlistRemove(sl: Ledger, reqs: seq<Record>, s: Session, requestId: string): Answer {
    if !HasRole(s, "csr") then Answer(Err(NotAuthenticated), None, None)
    else
      var me := Caller(s, "");
      var rid := ShortlistId(requestId);
      var current := Mine(sl, me);
      if rid !in current then Answer(Ok(AlreadyNotIn), None, None)
      else Finish(sl[me := Filter(current, NotId(rid))], MarkedList(reqs, RidOn(rid), RemovedOn(me)), RemovedMsg)
  }

  /** The loop that marks the first matching request, then stops. */
  method MarkFirst(reqs: seq<Record>, p: Record -> bool, mark: Record -> Option<Record>)
    returns (marked: Option<seq<Record>>)
    ensures marked == MarkedList(reqs, p, mark)
  {
    var found := FindFirst(reqs, p);
    if found.None? {
      return Some(reqs);
    }
    var k := found.value;
    var x := mark(reqs[k]);
    if x.None? {
      return None;
    }
    marked := Some(reqs[k := x.value]);
  }

  /** `csr_shortlist_save`: append to the caller's list, save it, then mark the request. */
  method CsrShortlistSave(sl: Ledger, reqs: seq<Record>, s: Session, requestId: string) returns (reply: Answer)
    ensures reply == ShortlistSave(sl, reqs, s, requestId)
  {
    if Lower(s.role) != Lower("csr") {
      return Answer(Err(NotAuthenticated), None, None);
    }
    var me := Caller(s, "");
    var rid := if HasReqPrefix(requestId) then requestId else "REQ-" + requestId;
    var current := Mine(sl, me);
    if rid in current {
      return Answer(Ok(AlreadyShortlisted), None, None);
    }
    current := current + [rid];
    var ledger := sl[me := current];
    var marked := MarkFirst(reqs, RidOn(rid), SavedOn(me));
    reply := Finish(ledger, marked, SavedMsg);
  }

  /** `csr_shortlist_remove`: drop the id from the caller's list, save it, then unmark the request. */
  method CsrShortlistRemove(sl: Ledger, reqs: seq<Record>, s: Session, requestId: string) returns (reply: Answer)
    ensures reply == ShortlistRemove(sl, reqs, s, requestId)
  {
    if Lower(s.role) != Lower("csr") {
      return Answer(Err(NotAuthenticated), None, None);
    }
    var me := Caller(s, "");
    var rid := if HasReqPrefix(requestId) then requestId else "REQ-" + requestId;
    var current := Mine(sl, me);
    if rid !in current {
      return Answer(Ok(AlreadyNotIn), None, None);
    }
    var kept := KeepOthers(current, rid);
    var ledger := sl[me := kept];
    var marked := MarkFirst(reqs, RidOn(rid), RemovedOn(me));
    reply := Finish(ledger, marked, RemovedMsg);
  }

  /** `[x for x in current if x != rid]` */
  method KeepOthers(current: seq<string>, rid: string) returns (kept: seq<string>)
    ensures kept == Filter(current, NotId(rid))
  {
    kept := [];
    var i := 0;
    while i < |current|
      invariant 0 <= i <= |current|
      invariant kept == Filter(current[..i], NotId(rid))
    {
      FilterSnoc(current[..i], current[i], NotId(rid));
      assert current[..i + 1] == current[..i] + [current[i]];
      if current[i] != rid {
        kept := kept + [current[i]];
      }
      i := i + 1;
    }
    assert current[..|current|] == current;
  }

  // ------------------------------------------------------------------ listing

  /** `by_id[key]`: the dict comprehension keeps the last record whose `str(id)` is `key`. */
  function ById(reqs: seq<Record>, key: string): Option<Record>
    decreases |reqs|
  {
    if reqs == [] then None
    else if Str(Get(reqs[|reqs| - 1], "id")) == key then Some(reqs[|reqs| - 1])
    else ById(reqs[..|reqs| - 1], key)
  }

  /** `by_id.get(str(rid)) or by_id.get(str(rid).replace('REQ-',''))`, kept only when truthy. */
  function Resolve(reqs: seq<Record>, rid: string): Option<Record> {
    var first := ById(reqs, rid);
    var r := if first.Some? && RecordTruthy(first.value) then first else ById(reqs, DeleteAll(rid, "REQ-"));
    if r.Some? && RecordTruthy(r.value) then r else None
  }

  /** The records the listing loop collects for `ids`, in that order. */
  function Resolved(reqs: seq<Record>, ids: seq<string>): seq<Record>
    decreases |ids|
  {
    if ids == [] then []
    else
      Resolved(reqs, ids[..|ids| - 1]) +
      (match Resolve(reqs, ids[|ids| - 1]) case Some(r) => [r] case None => [])
  }

  /** The row the listing shows for a request. */
  function ShortlistRow(r: Record): Record {
    map[
      "id" := Get(r, "id"),
      "title" := Get(r, "title"),
      "category" := Get(r, "category"),
      "date" := Get(r, "date"),
      "created" := GetOr(r, "created", Get(r, "date")),
      "status" := GetOr(r, "status", VStr("Pending")),
      "owner" := Get(r, "owner"),
      "description" := GetOr(r, "description", VStr("")),
      "location" := GetOr(r, "location", VStr("")),
      "assignedTo" := Get(r, "assignedTo"),
      "assignedAt" := Get(r, "assignedAt"),
      "viewCount" := GetOr(r, "viewCount", VInt(0)),
      "shortlistCount" := GetOr(r, "shortlistCount", VInt(0))
    ]
  }

  /**
   * The specification of `csr_shortlist_get`.  The route walks `set(ids)`,
   * whose order Python leaves unspecified; the model walks the ids in
   * first-saved order, each once.
   */
  function ShortlistGet(sl: Ledger, reqs: seq<Record>, s: Session): Outcome<seq<Record>> {
    if !HasRole(s, "csr") then Err(NotAuthenticated)
    else Ok(MapSeq(Resolved(reqs, Dedup(Mine(sl, Caller(s, "")))), ShortlistRow))
  }

  /** `csr_shortlist_get`: the lookup loop, then the projection loop. */
  method CsrShortlistGet(sl: Ledger, reqs: seq<Record>, s: Session) returns (res: Outcome<seq<Record>>)
    ensures res == ShortlistGet(sl, reqs, s)
  {
    if Lower(s.role) != Lower("csr") {
      return Err(NotAuthenticated);
    }
    var myIds := Dedup(Mine(sl, Caller(s, "")));
    var results := ResolveAll(reqs, myIds);
    var payload := ProjectRows(results);
    res := Ok(payload);
  }

  /** The lookup loop of `csr_shortlist_get`: each listed id that resolves contributes its request, in order. */
  method ResolveAll(reqs: seq<Record>, myIds: seq<string>) returns (results: seq<Record>)
    ensures results == Resolved(reqs, myIds)
  {
    results := [];
    var i := 0;
    while i < |myIds|
      invariant 0 <= i <= |myIds|
      invariant results == Resolved(reqs, myIds[..i])
    {
      assert myIds[..i + 1][..i] == myIds[..i];
      var r := Resolve(reqs, myIds[i]);
      if r.Some? {
        results := results + [r.value];
      }
      i := i + 1;
    }
    assert myIds[..|myIds|] == myIds;
  }

  /** The projection loop of `csr_shortlist_get`: one row per found request, in order. */
  method ProjectRows(results: seq<Record>) returns (payload: seq<Record>)
    ensures payload == MapSeq(results, ShortlistRow)
  {
    payload := [];
    var j := 0;
    while j < |results|
      invariant 0 <= j <= |results|
      invariant payload == MapSeq(results[..j], ShortlistRow)
    {
      MapSnoc(results[..j], results[j], ShortlistRow);
      assert results[..j + 1] == results[..j] + [results[j]];
      payload := payload + [ShortlistRow(results[j])];
      j := j + 1;
    }
    assert results[..|results|] == results;
  }

  // ------------------------------------------------------------------ properties

  /** The shortlist id always carries the prefix, keeps one that is there in any case, and is stable. */
  lemma ShortlistIdPrefixed(requestId: string)
    ensures HasReqPrefix(ShortlistId(requestId))
    ensures HasReqPrefix(requestId) ==> ShortlistId(requestId) == requestId
    ensures !HasReqPrefix(requestId) ==> ShortlistId(requestId) == "REQ-" + requestId
    ensures ShortlistId(ShortlistId(requestId)) == ShortlistId(requestId)
  {
    UpperReqPrefix(requestId);
  }

  /** "7" and "REQ-7" name the same shortlist entry; "req-7" is kept as written. */
  lemma ShortlistIdSpellings()
    ensures ShortlistId("7") == "REQ-7"
    ensures ShortlistId("REQ-7") == "REQ-7"
    ensures ShortlistId("req-7") == "req-7"
  {
    assert !HasReqPrefix("7");
    UpperReqPrefix("7");
    assert "REQ-" + "7" == "REQ-7";
    var l := "req-7";
    assert Upper(l)[..4] == "REQ-" by {
      assert Upper(l)[0] == 'R' && Upper(l)[1] == 'E' && Upper(l)[2] == 'Q' && Upper(l)[3] == '-';
    }
  }

  /** The rewrite touches only the first record `p` accepts; with none, the list is saved as loaded. */
  lemma MarkedListExact(reqs: seq<Record>, p: Record -> bool, mark: Record -> Option<Record>)
    ensures FirstIndex(reqs, p).None? ==> MarkedList(reqs, p, mark) == Some(reqs)
    ensures MarkedList(reqs, p, mark).Some? && FirstIndex(reqs, p).Some? ==>
      var k := FirstIndex(reqs, p).value;
      var after := MarkedList(reqs, p, mark).value;
      p(reqs[k]) && mark(reqs[k]).Some? &&
      |after| == |reqs| && after[k] == mark(reqs[k]).value &&
      forall j :: 0 <= j < |reqs| && j != k ==> after[j] == reqs[j]
    ensures MarkedList(reqs, p, mark).None? <==> FirstIndex(reqs, p).Some? && mark(reqs[FirstIndex(reqs, p).value]).None?
  {
  }

  /**
   * Save marks the request: `shortlisted` is True and `shortlisted_by` is
   * the sorted list, without repeats, of the names it held and the caller;
   * every other field is kept.  It raises only on a `shortlisted_by` that is
   * not names.
   */
  lemma SavedMarkExact(r: Record, me: string)
    ensures SavedMark(r, me).Some? <==> NameSet(Get(r, "shortlisted_by")).Some?
    ensures SavedMark(r, me).Some? ==>
      var x := SavedMark(r, me).value;
      var names := NameSet(Get(r, "shortlisted_by")).value;
      var marks := SortedNames(names + [me]);
      x["shortlisted"] == VBool(true) &&
      x["shortlisted_by"] == VList(StrValues(marks)) &&
      StrictlySorted(marks) && me in marks &&
      (forall n :: n in marks <==> n in names || n == me) &&
      (forall key :: key in r && key != "shortlisted" && key != "shortlisted_by" ==> key in x && x[key] == r[key])
  {
    match NameSet(Get(r, "shortlisted_by"))
    case None =>
    case Some(names) =>
      SortedNamesExact(names + [me]);
      forall n ensures n in names + [me] <==> n in names || n == me {
      }
  }

  /**
   * Remove unmarks the request: exactly one `me` leaves `shortlisted_by`
   * when it is there (nobody else's mark goes), `shortlisted` says whether
   * any mark is left, and every other field is kept.
   */
  lemma RemovedMarkExact(r: Record, me: string)
    ensures RemovedMark(r, me).Some? <==> ListOf(Get(r, "shortlisted_by")).Some?
    ensures RemovedMark(r, me).Some? ==>
      var x := RemovedMark(r, me).value;
      var arr := ListOf(Get(r, "shortlisted_by")).value;
      var left := RemoveFirst(arr, VStr(me));
      x["shortlisted_by"] == VList(left) &&
      multiset(left) == multiset(arr) - multiset{VStr(me)} &&
      x["shortlisted"] == VBool(left != []) &&
      (forall key :: key in r && key != "shortlisted" && key != "shortlisted_by" ==> key in x && x[key] == r[key])
  {
    match ListOf(Get(r, "shortlisted_by"))
    case None =>
    case Some(arr) =>
      RemoveFirstMultiset(arr, VStr(me));
  }

  /**
   * Saving an id already in the caller's list answers "Already shortlisted"
   * and saves nothing.  Otherwise the id is appended once to the caller's
   * list, the ledger is saved with every other CSR's list unchanged, and the
   * reply is "Saved to your shortlist" unless marking the request raises.
   */
  lemma SaveLedger(sl: Ledger, reqs: seq<Record>, s: Session, requestId: string)
    requires HasRole(s, "csr")
    ensures var me := Caller(s, "");
      var rid := ShortlistId(requestId);
      var reply := ShortlistSave(sl, reqs, s, requestId);
      (rid in Mine(sl, me) ==> reply == Answer(Ok(AlreadyShortlisted), None, None)) &&
      (rid !in Mine(sl, me) ==>
        reply.ledger.Some? &&
        Mine(reply.ledger.value, me) == Mine(sl, me) + [rid] &&
        multiset(Mine(reply.ledger.value, me))[rid] == 1 &&
        (forall n :: n != me ==> Mine(reply.ledger.value, n) == Mine(sl, n)) &&
        (reply.result == Ok(SavedMsg) || reply.result == Raised) &&
        (reply.result == Ok(SavedMsg) <==> reply.requests.Some?) &&
        reply.requests == MarkedList(reqs, RidOn(rid), SavedOn(me)))
  {
    var me := Caller(s, "");
    var rid := ShortlistId(requestId);
    if rid !in Mine(sl, me) {
      assert multiset(Mine(sl, me))[rid] == 0;
    }
  }

  /** Saving twice: the second save of the same id answers "Already shortlisted" and saves nothing. */
  lemma SaveTwice(sl: Ledger, reqs: seq<Record>, s: Session, requestId: string, reqs2: seq<Record>)
    requires ShortlistSave(sl, reqs, s, requestId).ledger.Some?
    ensures ShortlistSave(ShortlistSave(sl, reqs, s, requestId).ledger.value, reqs2, s, requestId) ==
      Answer(Ok(AlreadyShortlisted), None, None)
  {
    var me := Caller(s, "");
    var rid := ShortlistId(requestId);
    var l := ShortlistSave(sl, reqs, s, requestId).ledger.value;
    assert Mine(l, me) == Mine(sl, me) + [rid];
    assert rid in Mine(l, me);
  }

  /**
   * Removing an id that is not in the caller's list answers "Already not in
   * your shortlist" and saves nothing.  Otherwise every occurrence leaves
   * the caller's list, the other ids keep their order, every other CSR's
   * list is unchanged, and the reply is "Removed from your shortlist" unless
   * unmarking the request raises.
   */
  lemma RemoveLedger(sl: Ledger, reqs: seq<Record>, s: Session, requestId: string)
    requires HasRole(s, "csr")
    ensures var me := Caller(s, "");
      var rid := ShortlistId(requestId);
      var reply := ShortlistRemove(sl, reqs, s, requestId);
      (rid !in Mine(sl, me) ==> reply == Answer(Ok(AlreadyNotIn), None, None)) &&
      (rid in Mine(sl, me) ==>
        reply.ledger.Some? &&
        rid !in Mine(reply.ledger.value, me) &&
        IsSubseq(Mine(reply.ledger.value, me), Mine(sl, me)) &&
        (forall x :: x in Mine(reply.ledger.value, me) <==> x in Mine(sl, me) && x != rid) &&
        (forall n :: n != me ==> Mine(reply.ledger.value, n) == Mine(sl, n)) &&
        (reply.result == Ok(RemovedMsg) || reply.result == Raised) &&
        reply.requests == MarkedList(reqs, RidOn(rid), RemovedOn(me)))
  {
    var me := Caller(s, "");
    var rid := ShortlistId(requestId);
    if rid in Mine(sl, me) {
      RemovedLedgerIs(sl, reqs, s, requestId);
      FilteredLedger(sl, me, rid);
    }
  }

  /** Filtering an id out of one CSR's list drops every occurrence there and touches no other list. */
  lemma FilteredLedger(sl: Ledger, me: string, rid: string)
    ensures var l := sl[me := Filter(Mine(sl, me), NotId(rid))];
      rid !in Mine(l, me) &&
      IsSubseq(Mine(l, me), Mine(sl, me)) &&
      (forall x :: x in Mine(l, me) <==> x in Mine(sl, me) && x != rid) &&
      (forall n :: n != me ==> Mine(l, n) == Mine(sl, n))
  {
    var kept := Filter(Mine(sl, me), NotId(rid));
    FilterProperties(Mine(sl, me), NotId(rid));
    forall x ensures x in kept <==> x in Mine(sl, me) && x != rid {
      assert NotId(rid)(x) == (x != rid);
    }
  }

  lemma SavedLedgerIs(sl: Ledger, reqs: seq<Record>, s: Session, requestId: string)
    requires ShortlistSave(sl, reqs, s, requestId).ledger.Some?
    ensures HasRole(s, "csr") && ShortlistId(requestId) !in Mine(sl, Caller(s, ""))
    ensures ShortlistSave(sl, reqs, s, requestId).ledger.value ==
      sl[Caller(s, "") := Mine(sl, Caller(s, "")) + [ShortlistId(requestId)]]
  {
  }

  lemma RemovedLedgerIs(sl: Ledger, reqs: seq<Record>, s: Session, requestId: string)
    requires HasRole(s, "csr") && ShortlistId(requestId) in Mine(sl, Caller(s, ""))
    ensures ShortlistRemove(sl, reqs, s, requestId).ledger ==
      Some(sl[Caller(s, "") := Filter(Mine(sl, Caller(s, "")), NotId(ShortlistId(requestId)))])
  {
  }

  /** Saving a new id and then removing it gives every CSR's list back as it was. */
  lemma SaveThenRemove(sl: Ledger, reqs: seq<Record>, s: Session, requestId: string, reqs2: seq<Record>)
    requires ShortlistSave(sl, reqs, s, requestId).ledger.Some?
    ensures var l := ShortlistSave(sl, reqs, s, requestId).ledger.value;
      ShortlistRemove(l, reqs2, s, requestId).ledger.Some? &&
      forall n :: Mine(ShortlistRemove(l, reqs2, s, requestId).ledger.value, n) == Mine(sl, n)
  {
    var me := Caller(s, "");
    var rid := ShortlistId(requestId);
    var before := Mine(sl, me);
    SavedLedgerIs(sl, reqs, s, requestId);
    var l := sl[me := before + [rid]];
    assert Mine(l, me) == before + [rid];
    RemovedLedgerIs(l, reqs2, s, requestId);
    FilterSnoc(before, rid, NotId(rid));
    forall i | 0 <= i < |before| ensures NotId(rid)(before[i]) {
      assert before[i] in before;
    }
    FilterAll(before, NotId(rid));
    assert Filter(Mine(l, me), NotId(rid)) == before;
  }

  /** A listed record is one the id lookup finds: a non-empty record whose id is the entry, with or without "REQ-". */
  lemma {:induction false} ByIdFinds(reqs: seq<Record>, key: string)
    ensures ById(reqs, key).Some? ==> ById(reqs, key).value in reqs && Str(Get(ById(reqs, key).value, "id")) == key
    ensures ById(reqs, key).None? <==> forall j :: 0 <= j < |reqs| ==> Str(Get(reqs[j], "id")) != key
    decreases |reqs|
  {
    if reqs != [] {
      var init := reqs[..|reqs| - 1];
      ByIdFinds(init, key);
      assert reqs == init + [reqs[|reqs| - 1]];
      forall j | 0 <= j < |init| ensures init[j] == reqs[j] {
      }
    }
  }

  /** The later of two records with the same id is the one the lookup finds. */
  lemma ByIdLastWins(reqs: seq<Record>, r: Record, key: string)
    requires Str(Get(r, "id")) == key
    ensures ById(reqs + [r], key) == Some(r)
  {
  }

  lemma ResolveFinds(reqs: seq<Record>, rid: string)
    ensures Resolve(reqs, rid).Some? ==>
      var r := Resolve(reqs, rid).value;
      r in reqs && RecordTruthy(r) && (Str(Get(r, "id")) == rid || Str(Get(r, "id")) == DeleteAll(rid, "REQ-"))
  {
    ByIdFinds(reqs, rid);
    ByIdFinds(reqs, DeleteAll(rid, "REQ-"));
  }

  /** Every collected record was found for one of the ids, at most one record per id. */
  lemma {:induction false} ResolvedFromIds(reqs: seq<Record>, ids: seq<string>)
    ensures |Resolved(reqs, ids)| <= |ids|
    ensures forall k :: 0 <= k < |Resolved(reqs, ids)| ==>
      exists i :: 0 <= i < |ids| && Resolve(reqs, ids[i]) == Some(Resolved(reqs, ids)[k])
    decreases |ids|
  {
    if ids != [] {
      var init := ids[..|ids| - 1];
      var last := ids[|ids| - 1];
      ResolvedFromIds(reqs, init);
      var prev := Resolved(reqs, init);
      var res := Resolved(reqs, ids);
      forall k | 0 <= k < |res|
        ensures exists i :: 0 <= i < |ids| && Resolve(reqs, ids[i]) == Some(res[k])
      {
        if k < |prev| {
          assert res[k] == prev[k];
          var i :| 0 <= i < |init| && Resolve(reqs, init[i]) == Some(prev[k]);
          assert ids[i] == init[i];
        } else {
          assert Resolve(reqs, ids[|ids| - 1]) == Some(res[k]);
        }
      }
    }
  }

  /** `row` is the projection `f` of a non-empty request whose id is one of `ids`, with or without "REQ-". */
  ghost predicate ShownFrom(row: Record, f: Record -> Record, reqs: seq<Record>, ids: seq<string>) {
    exists r, rid :: r in reqs && rid in ids && RecordTruthy(r) && RidMatch(r, rid) && row == f(r)
  }

  lemma ShownFromMore(row: Record, f: Record -> Record, reqs: seq<Record>, ids: seq<string>, more: seq<string>)
    requires ShownFrom(row, f, reqs, ids)
    requires forall i :: 0 <= i < |ids| ==> ids[i] in more
    ensures ShownFrom(row, f, reqs, more)
  {
    var r, rid :| r in reqs && rid in ids && RecordTruthy(r) && RidMatch(r, rid) && row == f(r);
    var i :| 0 <= i < |ids| && ids[i] == rid;
    assert rid in more;
  }

  /** Each row is the projection `f` of a non-empty request found for one of `ids`, at most one row per id. */
  lemma RowsFromIds(reqs: seq<Record>, ids: seq<string>, f: Record -> Record)
    ensures |MapSeq(Resolved(reqs, ids), f)| <= |ids|
    ensures forall k :: 0 <= k < |MapSeq(Resolved(reqs, ids), f)| ==> ShownFrom(MapSeq(Resolved(reqs, ids), f)[k], f, reqs, ids)
  {
    var res := Resolved(reqs, ids);
    ResolvedFromIds(reqs, ids);
    MapIndex(res, f);
    forall k | 0 <= k < |res|
      ensures ShownFrom(MapSeq(res, f)[k], f, reqs, ids)
    {
      var i :| 0 <= i < |ids| && Resolve(reqs, ids[i]) == Some(res[k]);
      ResolveFinds(reqs, ids[i]);
      assert res[k] in reqs && ids[i] in ids && RecordTruthy(res[k]) && RidMatch(res[k], ids[i]) && MapSeq(res, f)[k] == f(res[k]);
    }
  }

  /** Every listed id that resolves contributes its request to the lookup loop's results. */
  lemma {:induction false} ResolvedComplete(reqs: seq<Record>, ids: seq<string>, rid: string)
    requires rid in ids && Resolve(reqs, rid).Some?
    ensures Resolve(reqs, rid).value in Resolved(reqs, ids)
    decreases |ids|
  {
    var init := ids[..|ids| - 1];
    if rid != ids[|ids| - 1] {
      assert rid in init;
      ResolvedComplete(reqs, init, rid);
    }
  }

  /**
   * The listing shows only the caller's shortlist: one row per saved id at
   * most, each the projection of a non-empty request whose id is that entry
   * with or without "REQ-", and every saved id that resolves is shown;
   * without the csr role it is refused.
   */
  lemma GetOnlyMine(sl: Ledger, reqs: seq<Record>, s: Session)
    ensures !HasRole(s, "csr") ==> ShortlistGet(sl, reqs, s) == Err(NotAuthenticated)
    ensures ShortlistGet(sl, reqs, s).Ok? ==>
      var mine := Mine(sl, Caller(s, ""));
      var rows := ShortlistGet(sl, reqs, s).value;
      |rows| <= |Dedup(mine)| &&
      (forall k :: 0 <= k < |rows| ==> ShownFrom(rows[k], ShortlistRow, reqs, mine)) &&
      (forall rid :: rid in mine && Resolve(reqs, rid).Some? ==> ShortlistRow(Resolve(reqs, rid).value) in rows)
  {
    if HasRole(s, "csr") {
      var mine := Mine(sl, Caller(s, ""));
      var ids := Dedup(mine);
      var found := Resolved(reqs, ids);
      var rows := MapSeq(found, ShortlistRow);
      RowsFromIds(reqs, ids, ShortlistRow);
      forall k | 0 <= k < |rows| ensures ShownFrom(rows[k], ShortlistRow, reqs, mine) {
        ShownFromMore(rows[k], ShortlistRow, reqs, ids, mine);
      }
      MapIndex(found, ShortlistRow);
      forall rid | rid in mine && Resolve(reqs, rid).Some?
        ensures ShortlistRow(Resolve(reqs, rid).value) in rows
      {
        var i :| 0 <= i < |mine| && mine[i] == rid;
        assert rid in ids;
        ResolvedComplete(reqs, ids, rid);
        var k :| 0 <= k < |found| && found[k] == Resolve(reqs, rid).value;
        assert rows[k] == ShortlistRow(found[k]);
      }
    }
  }
}
