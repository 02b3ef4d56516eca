/**
 * The CSR view of the request file in the JSON service (app.py): the row
 * `_map_req_to_csr` builds for a request, the index of categories by id it
 * reads names from, and the CSR search that filters the rows by keyword,
 * category and status.
 */
module AppCsrView {
  import opened PyValue
  import opened Seqs
  import AppIds

  /** The object `_map_req_to_csr` builds for the CSR pages. */
  datatype CsrRow = CsrRow(
    id: string, title: Value, category: Value, date: Value, created: Value, status: string,
    owner: Value, description: Value, location: Value, viewCount: int, shortlistCount: int,
    assignedTo: Value, assignedAt: Value)

  // ------------------------------------------------------------------ the category index

  /** `{str(c["id"]): c for c in cats}`: a later category wins; None where one has no "id". */
  function CatIndex(cats: seq<Record>): Option<map<string, Record>>
    decreases |cats|
  {
    if cats == [] then Some(map[])
    else
      var last := cats[|cats| - 1];
      match CatIndex(cats[..|cats| - 1])
      case None => None
      case Some(m) => if "id" in last then Some(m[Str(last["id"]) := last]) else None
  }

  /** The key a category is indexed under, `str(c["id"])`. */
  function IdOf(c: Record): string {
    Str(Get(c, "id"))
  }

  /** `cats[j]` is the last category indexed under `key`. */
  predicate LastWithId(cats: seq<Record>, key: string, j: int) {
    0 <= j < |cats| && IdOf(cats[j]) == key && forall i :: j < i < |cats| ==> IdOf(cats[i]) != key
  }

  /** The index exists exactly when every category has an id. */
  lemma {:induction false} CatIndexRaises(cats: seq<Record>)
    ensures CatIndex(cats).Some? <==> forall j :: 0 <= j < |cats| ==> "id" in cats[j]
    decreases |cats|
  {
    if cats != [] {
      var init := cats[..|cats| - 1];
      CatIndexRaises(init);
      assert forall j :: 0 <= j < |init| ==> init[j] == cats[j];
    }
  }

  /** The index holds the id of every category. */
  lemma {:induction false} CatIndexKeys(cats: seq<Record>)
    ensures CatIndex(cats).Some? ==> forall j :: 0 <= j < |cats| ==> IdOf(cats[j]) in CatIndex(cats).value
    decreases |cats|
  {
    if cats != [] && CatIndex(cats).Some? {
      var init, last := cats[..|cats| - 1], cats[|cats| - 1];
      CatIndexKeys(init);
      assert CatIndex(cats).value == CatIndex(init).value[IdOf(last) := last];
      assert forall j :: 0 <= j < |init| ==> init[j] == cats[j];
    }
  }

  /** Under each id the index holds the last category with that id. */
  lemma {:induction false} CatIndexLast(cats: seq<Record>)
    ensures CatIndex(cats).Some? ==> var m := CatIndex(cats).value;
      forall key :: key in m ==> exists j :: LastWithId(cats, key, j) && m[key] == cats[j]
    decreases |cats|
  {
    if cats != [] && CatIndex(cats).Some? {
      var init, last := cats[..|cats| - 1], cats[|cats| - 1];
      assert CatIndex(init).Some?;
      CatIndexLast(init);
      var m0 := CatIndex(init).value;
      var m := CatIndex(cats).value;
      assert m == m0[IdOf(last) := last];
      forall key | key in m
        ensures exists j :: LastWithId(cats, key, j) && m[key] == cats[j]
      {
        if key == IdOf(last) {
          assert LastWithId(cats, key, |cats| - 1);
        } else {
          assert key in m0 && m[key] == m0[key];
          assert exists j :: LastWithId(init, key, j) && m0[key] == init[j];
          var j :| LastWithId(init, key, j) && m0[key] == init[j];
          assert forall i :: j < i < |init| ==> init[i] == cats[i];
          assert LastWithId(cats, key, j);
        }
      }
    }
  }

  // ------------------------------------------------------------------ the CSR row

  /** `(created or now_iso())[:10]`; slicing an int or a bool raises. */
  function FirstTen(v: Value): Option<Value> {
    match v
    case VStr(s) => Some(VStr(if |s| <= 10 then s else s[..10]))
    case VList(xs) => Some(VList(if |xs| <= 10 then xs else xs[..10]))
    case _ => None
  }

  /**
   * The category name a row shows: the record's own, or else, when the
   * index is not empty and the record names a category id, the name of the
   * non-empty category indexed under that id.
   */
  function CatName(rec: Record, index: map<string, Record>): Value {
    var own := Get(rec, "categoryName");
    var cid := Get(rec, "categoryId");
    if !Truthy(own) && index != map[] && Truthy(cid) && Str(cid) in index && index[Str(cid)] != map[] then
      Get(index[Str(cid)], "name")
    else own
  }

  /** `_map_req_to_csr(rec, cats_index, shortlist_ids)`; None where a status that is not a str, or a created stamp that is an int, raises. */
  function MapRow(rec: Record, index: map<string, Record>, ids: set<string>, now: string): Option<CsrRow> {
    var rid := AppIds.ReqIdToString(Get(rec, "id"));
    var catName := CatName(rec, index);
    var created := Or(Get(rec, "createdAt"), VStr(now));
    match (FirstTen(Or(created, VStr(now))), GetOr(rec, "status", VStr("pending")))
    case (Some(date), VStr(st)) =>
      Some(CsrRow(
        rid, Or(Get(rec, "title"), Or(catName, VStr("Assistance"))), Or(catName, VStr("\U{2014}")),
        date, created, Title(Strip(st)), Or(Get(rec, "createdBy"), VStr("")),
        Or(Get(rec, "description"), VStr("")), Or(Get(rec, "location"), VStr("")),
        0, if ids != {} && rid in ids then 1 else 0,
        Get(rec, "assignedTo"), Get(rec, "assignedAt")))
    case _ => None
  }

  function RowOf(index: map<string, Record>, ids: set<string>, now: string): Record -> Option<CsrRow> {
    (rec: Record) => MapRow(rec, index, ids, now)
  }

  /** `[_map_req_to_csr(r, cat_index, shortlist_ids) for r in reqs]`; None where one raises. */
  function MapRows(reqs: seq<Record>, index: map<string, Record>, ids: set<string>, now: string): Option<seq<CsrRow>> {
    MapAll(reqs, RowOf(index, ids, now))
  }

  /**
   * A row exists unless the stored status is present and not a str, or the
   * creation stamp is a truthy int or bool.  It always has a title and a
   * category to show, shows the stored title when there is one, reports no
   * views, counts the request once exactly when its "REQ-n" id is
   * shortlisted, carries an id `int()` reads back to the stored number,
   * and dates it by at most the first ten characters of the stamp.
   */
  lemma MapRowExact(rec: Record, index: map<string, Record>, ids: set<string>, now: string)
    ensures MapRow(rec, index, ids, now).None? <==>
      !GetOr(rec, "status", VStr("pending")).VStr? ||
      (Truthy(Get(rec, "createdAt")) && (Get(rec, "createdAt").VInt? || Get(rec, "createdAt").VBool?))
    ensures MapRow(rec, index, ids, now).Some? ==> var row := MapRow(rec, index, ids, now).value;
      Truthy(row.title) && Truthy(row.category) &&
      (Truthy(Get(rec, "title")) ==> row.title == Get(rec, "title")) &&
      row.id == AppIds.ReqIdToString(Get(rec, "id")) &&
      row.viewCount == 0 &&
      (row.shortlistCount == 1 <==> row.id in ids) && (row.shortlistCount == 0 <==> row.id !in ids) &&
      (row.date.VStr? ==> row.created.VStr? && |row.date.s| <= 10 && row.date.s <= row.created.s) &&
      (Get(rec, "id").VInt? ==> AppIds.ReqStringToInt(VStr(row.id)) == Some(Get(rec, "id").i)) &&
      row.assignedTo == Get(rec, "assignedTo") && row.assignedAt == Get(rec, "assignedAt")
  {
    if Get(rec, "id").VInt? {
      AppIds.ReqIdRoundTrip(Get(rec, "id").i);
    }
  }

  /**
   * Mapping every request yields a row for each, in store order, unless
   * one of them raises.
   */
  lemma MapRowsExact(reqs: seq<Record>, index: map<string, Record>, ids: set<string>, now: string)
    ensures MapRows(reqs, index, ids, now).Some? <==> forall j :: 0 <= j < |reqs| ==> MapRow(reqs[j], index, ids, now).Some?
    ensures MapRows(reqs, index, ids, now).Some? ==> var rows := MapRows(reqs, index, ids, now).value;
      |rows| == |reqs| && forall j :: 0 <= j < |reqs| ==> rows[j] == MapRow(reqs[j], index, ids, now).value
  {
    MapAllExact(reqs, RowOf(index, ids, now));
  }

  // ------------------------------------------------------------------ the CSR search

  /**
   * The criteria: `(keyword or q or "").strip().lower()`,
   * `(category or "").strip()` and `(status or "").strip().lower()`; None
   * where one is a truthy non-str.
   */
  datatype Criteria = Criteria(kw: string, cat: string, status: string)

  function ReadCriteria(p: Record): Option<Criteria> {
    match (TextOr(Or(Get(p, "keyword"), Get(p, "q")), ""), TextOr(Get(p, "category"), ""), TextOr(Get(p, "status"), ""))
    case (Some(kw), Some(cat), Some(status)) => Some(Criteria(Lower(Strip(kw)), Strip(cat), Lower(Strip(status))))
    case _ => None
  }

  /**
   * `kw in (r["title"] or "").lower() or kw in (r["description"] or "").lower()
   * or kw in str(r["id"]).lower()`, left to right; None where a title or a
   * description it reaches is a truthy non-str.
   */
  function KwHit(r: CsrRow, kw: string): Option<bool> {
    match TextOr(r.title, "")
    case None => None
    case Some(t) =>
      if Contains(Lower(t), kw) then Some(true)
      else
        match TextOr(r.description, "")
        case None => None
        case Some(d) => Some(Contains(Lower(d), kw) || Contains(Lower(r.id), kw))
  }

  function KwTest(kw: string): CsrRow -> Option<bool> {
    (r: CsrRow) => KwHit(r, kw)
  }

  function KwOn(kw: string): CsrRow -> bool {
    (r: CsrRow) => KwHit(r, kw) == Some(true)
  }

  /** `r["category"] == cat` */
  function InCategory(cat: string): CsrRow -> bool {
    (r: CsrRow) => r.category == VStr(cat)
  }

  /** `(r["status"] or "").lower() == status` */
  function HasStatus(status: string): CsrRow -> bool {
    (r: CsrRow) => Lower(r.status) == status
  }

  /** A row meets every criterion that is given; a blank criterion is not applied. */
  predicate Matches(r: CsrRow, c: Criteria) {
    (c.kw == "" || KwHit(r, c.kw) == Some(true)) &&
    (c.cat == "" || r.category == VStr(c.cat)) &&
    (c.status == "" || Lower(r.status) == c.status)
  }

  function MatchesOn(c: Criteria): CsrRow -> bool {
    (r: CsrRow) => Matches(r, c)
  }

  /** The rows the search starts from; None where building them raises. */
  function SearchRows(reqs: seq<Record>, cats: seq<Record>, ids: set<string>, now: string): Option<seq<CsrRow>> {
    match CatIndex(cats)
    case None => None
    case Some(index) => MapRows(reqs, index, ids, now)
  }

  /** The three filters of `csr_requests_search`, each applied only when its criterion is given; None where a keyword test raises. */
  function SearchOn(rows: seq<CsrRow>, c: Criteria): Option<seq<CsrRow>> {
    var kept := if c.kw != "" then KeepWhere(rows, KwTest(c.kw)) else Some(rows);
    if kept.None? then None
    else
      var inCat := if c.cat != "" then Filter(kept.value, InCategory(c.cat)) else kept.value;
      Some(if c.status != "" then Filter(inCat, HasStatus(c.status)) else inCat)
  }

  /** The specification of `csr_requests_search`: the rows that remain, `count` being their number. */
  function SearchRoute(reqs: seq<Record>, cats: seq<Record>, ids: set<string>, p: Record, now: string): Outcome<seq<CsrRow>> {
    match (ReadCriteria(p), SearchRows(reqs, cats, ids, now))
    case (Some(c), Some(rows)) =>
      var out := SearchOn(rows, c);
      if out.Some? then Ok(out.value) else Raised
    case _ => Raised
  }

  /**
   * Searching by a row's own id, in any case, never passes it over: the
   * keyword test either raises or finds it.
   */
  lemma OwnIdFound(r: CsrRow)
    ensures KwHit(r, Lower(r.id)) != Some(false)
  {
    assert OccursAt(Lower(r.id), Lower(r.id), 0);
  }

  /** A stage applied only when its criterion is given is the filter by "not given, or met". */
  lemma StageFilter(rows: seq<CsrRow>, given: bool, p: CsrRow -> bool, q: CsrRow -> bool)
    requires forall r :: q(r) == (!given || p(r))
    ensures (if given then Filter(rows, p) else rows) == Filter(rows, q)
  {
    if given {
      FilterSame(rows, p, q);
    } else {
      FilterAll(rows, q);
    }
  }

  /** The filters raise exactly when a keyword is given and its test raises on some row. */
  lemma SearchOnRaises(rows: seq<CsrRow>, c: Criteria)
    ensures SearchOn(rows, c).None? <==> c.kw != "" && exists j :: 0 <= j < |rows| && KwHit(rows[j], c.kw).None?
  {
    KeepWhereExact(rows, KwTest(c.kw), KwOn(c.kw));
  }

  /** The filters answer, in order, exactly the rows that meet every given criterion. */
  lemma SearchOnFilters(rows: seq<CsrRow>, c: Criteria)
    ensures SearchOn(rows, c).Some? ==> SearchOn(rows, c).value == Filter(rows, MatchesOn(c))
  {
    var kept := if c.kw != "" then KeepWhere(rows, KwTest(c.kw)) else Some(rows);
    if kept.Some? {
      var p1 := (r: CsrRow) => c.kw == "" || KwHit(r, c.kw) == Some(true);
      var p2 := (r: CsrRow) => c.cat == "" || r.category == VStr(c.cat);
      var p3 := (r: CsrRow) => c.status == "" || Lower(r.status) == c.status;
      var p12 := (r: CsrRow) => p1(r) && p2(r);
      if c.kw != "" {
        KeepWhereExact(rows, KwTest(c.kw), KwOn(c.kw));
      }
      StageFilter(rows, c.kw != "", KwOn(c.kw), p1);
      var r1 := kept.value;
      assert r1 == Filter(rows, p1);
      StageFilter(r1, c.cat != "", InCategory(c.cat), p2);
      var r2 := if c.cat != "" then Filter(r1, InCategory(c.cat)) else r1;
      StageFilter(r2, c.status != "", HasStatus(c.status), p3);
      FilterAnd(rows, p1, p2, p12);
      FilterAnd(rows, p12, p3, MatchesOn(c));
    }
  }

  /**
   * What the search answers is an ordered selection of the rows holding
   * exactly those that meet every given criterion, and all rows when none
   * is given.
   */
  lemma SearchOnExact(rows: seq<CsrRow>, c: Criteria)
    ensures SearchOn(rows, c).Some? ==> var out := SearchOn(rows, c).value;
      IsSubseq(out, rows) &&
      (forall r :: r in out <==> r in rows && Matches(r, c)) &&
      (c.kw == "" && c.cat == "" && c.status == "" ==> out == rows)
  {
    if SearchOn(rows, c).Some? {
      SearchOnFilters(rows, c);
      FilterProperties(rows, MatchesOn(c));
      if c.kw == "" && c.cat == "" && c.status == "" {
        FilterAll(rows, MatchesOn(c));
      }
    }
  }
}
