/**
 * The weekly platform report (UserStory39): the entities read the category,
 * user and request stores, the controller counts what they return and the
 * page accepts only the 'weekly' option.  Requests are kept when their most
 * relevant timestamp falls in the last seven days, and are bucketed by a
 * normalised status; users are flattened out of their role buckets and
 * sorted by (role, id).
 *
 * The clock is the parameter `today` (a day number) and date parsing is the
 * parameter `dayOf`, which gives the day number of an ISO date or timestamp
 * string, or None when none of the accepted shapes parses.
 */
module WeeklyReport {
  import opened PyValue
  import opened Seqs
  import opened Report

  const OnlyWeekly := "Error: Only 'weekly' date option is supported in this flow."

  // ------------------------------------------------------------- dates

  /** `_parse_iso_date`: falsy values and non-strings (whose `replace` would raise, which is caught) give None. */
  function ParseIsoDate(v: Value, dayOf: string -> Option<int>): (d: Option<int>)
    ensures !v.VStr? ==> d.None?
    ensures v.VStr? && v.s != "" ==> d == dayOf(v.s)
  {
    if v.VStr? && v.s != "" then dayOf(v.s) else None
  }

  /** `_in_last_7_days`: the parsed day lies in the inclusive range today-6 .. today. */
  predicate InLast7Days(v: Value, today: int, dayOf: string -> Option<int>) {
    match ParseIsoDate(v, dayOf)
    case None => false
    case Some(d) => today - 6 <= d <= today
  }

  /** `r.get("updatedAt") or r.get("createdAt") or r.get("date")` */
  function Timestamp(r: Record): Value {
    Or(Or(Get(r, "updatedAt"), Get(r, "createdAt")), Get(r, "date"))
  }

  predicate InWindow(r: Record, today: int, dayOf: string -> Option<int>) {
    InLast7Days(Timestamp(r), today, dayOf)
  }

  function InWindowOn(today: int, dayOf: string -> Option<int>): Record -> bool {
    (r: Record) => InWindow(r, today, dayOf)
  }

  // ------------------------------------------------------------- status

  /**
   * `_norm_status`: the trimmed, lower-cased status names one of three
   * buckets.  None where `(raw or "").strip()` raises, i.e. for a truthy
   * non-string.
   */
  function NormStatus(raw: Value): Option<string> {
    match TextOr(raw, "")
    case None => None
    case Some(t) =>
      var s := Lower(Strip(t));
      if s == "completed" || s == "complete" then Some("Completed")
      else if s == "in progress" || s == "in_progress" || s == "inprogress" || s == "assigned" || s == "in prog"
      then Some("Assigned")
      else Some("Pending")
  }

  // ------------------------------------------------------------- request buckets

  /** The minimal request summary the entity puts in a bucket; the date is kept as its day number. */
  datatype WeeklyEntry = WeeklyEntry(
    requestId: Value, requestDay: int, requestStatus: string,
    requestTitle: Value, requestCategory: Value, requestLocation: Value)

  function BucketName(r: Record): string {
    match NormStatus(Get(r, "status"))
    case Some(b) => b
    case None => "Pending"
  }

  /** `(_parse_iso_date(ts) or today)` */
  function DayOrToday(ts: Value, today: int, dayOf: string -> Option<int>): int {
    match ParseIsoDate(ts, dayOf)
    case Some(d) => d
    case None => today
  }

  function SummaryOf(r: Record, today: int, dayOf: string -> Option<int>): WeeklyEntry {
    WeeklyEntry(
      Get(r, "id"),
      DayOrToday(Timestamp(r), today, dayOf),
      BucketName(r),
      Or(Or(Get(r, "title"), Get(r, "categoryName")), VStr("Assistance")),
      Or(Get(r, "categoryName"), Get(r, "categoryId")),
      Or(Get(r, "location"), VStr("")))
  }

  function Summary(today: int, dayOf: string -> Option<int>): Record -> WeeklyEntry {
    r => SummaryOf(r, today, dayOf)
  }

  /** The request is in the window and its status normalises to bucket `b`. */
  predicate LandsIn(r: Record, today: int, dayOf: string -> Option<int>, b: string) {
    InWindow(r, today, dayOf) && NormStatus(Get(r, "status")) == Some(b)
  }

  function Lands(today: int, dayOf: string -> Option<int>, b: string): Record -> bool {
    r => LandsIn(r, today, dayOf, b)
  }

  /** The bucket `b` of the entity's result. */
  function WeekBucket(reqs: seq<Record>, today: int, dayOf: string -> Option<int>, b: string): seq<WeeklyEntry> {
    MapSeq(Filter(reqs, Lands(today, dayOf, b)), Summary(today, dayOf))
  }

  /** An in-window request whose status makes `_norm_status` raise. */
  predicate Fails(r: Record, today: int, dayOf: string -> Option<int>) {
    InWindow(r, today, dayOf) && NormStatus(Get(r, "status")).None?
  }

  predicate AnyFails(reqs: seq<Record>, today: int, dayOf: string -> Option<int>) {
    exists i :: 0 <= i < |reqs| && Fails(reqs[i], today, dayOf)
  }

  datatype WeeklyBuckets = WeeklyBuckets(pending: seq<WeeklyEntry>, assignedEntries: seq<WeeklyEntry>, completed: seq<WeeklyEntry>)

  lemma WeekBucketSnoc(reqs: seq<Record>, r: Record, today: int, dayOf: string -> Option<int>, b: string)
    ensures WeekBucket(reqs + [r], today, dayOf, b) ==
      WeekBucket(reqs, today, dayOf, b) + (if LandsIn(r, today, dayOf, b) then [SummaryOf(r, today, dayOf)] else [])
  {
    var p := Lands(today, dayOf, b);
    FilterSnoc(reqs, r, p);
    var f := Filter(reqs, p);
    assert p(r) == LandsIn(r, today, dayOf, b);
    if LandsIn(r, today, dayOf, b) {
      assert Filter(reqs + [r], p) == f + [r];
      MapSnoc(f, r, Summary(today, dayOf));
    } else {
      assert Filter(reqs + [r], p) == f;
    }
  }

  /**
   * The body of the request loop: a request in the window is appended to
   * the bucket of its status; false where `_norm_status` raises.
   */
  method FileRequest(r: Record, today: int, dayOf: string -> Option<int>,
                     pending: seq<WeeklyEntry>, assignedEntries: seq<WeeklyEntry>, completed: seq<WeeklyEntry>)
    returns (ok: bool, pending': seq<WeeklyEntry>, assigned': seq<WeeklyEntry>, completed': seq<WeeklyEntry>)
    ensures ok <==> !Fails(r, today, dayOf)
    ensures ok ==>
      pending' == pending + (if LandsIn(r, today, dayOf, "Pending") then [SummaryOf(r, today, dayOf)] else []) &&
      assigned' == assignedEntries + (if LandsIn(r, today, dayOf, "Assigned") then [SummaryOf(r, today, dayOf)] else []) &&
      completed' == completed + (if LandsIn(r, today, dayOf, "Completed") then [SummaryOf(r, today, dayOf)] else [])
  {
    ok, pending', assigned', completed' := true, pending, assignedEntries, completed;
    var ts := Timestamp(r);
    if InLast7Days(ts, today, dayOf) {
      var bucket := NormStatus(Get(r, "status"));
      if bucket.None? {
        ok := false;
        return;
      }
      NormStatusRange(Get(r, "status"));
      var entry := SummaryOf(r, today, dayOf);
      if bucket.value == "Pending" {
        pending' := pending + [entry];
      } else if bucket.value == "Assigned" {
        assigned' := assignedEntries + [entry];
      } else {
        completed' := completed + [entry];
      }
    }
  }

  /** `Request.generateReport`; None where `_norm_status` raises for an in-window request. */
  method RequestReport(reqs: seq<Record>, today: int, dayOf: string -> Option<int>) returns (res: Option<WeeklyBuckets>)
    ensures res.None? <==> AnyFails(reqs, today, dayOf)
    ensures res.Some? ==> res.value == WeeklyBuckets(
      WeekBucket(reqs, today, dayOf, "Pending"),
      WeekBucket(reqs, today, dayOf, "Assigned"),
      WeekBucket(reqs, today, dayOf, "Completed"))
  {
    var pending, assignedEntries, completed := [], [], [];
    var i := 0;
    while i < |reqs|
      invariant 0 <= i <= |reqs|
      invariant !AnyFails(reqs[..i], today, dayOf)
      invariant pending == WeekBucket(reqs[..i], today, dayOf, "Pending")
      invariant assignedEntries == WeekBucket(reqs[..i], today, dayOf, "Assigned")
      invariant completed == WeekBucket(reqs[..i], today, dayOf, "Completed")
    {
      var r := reqs[i];
      assert reqs[..i + 1] == reqs[..i] + [r];
      var ok;
      ok, pending, assignedEntries, completed := FileRequest(r, today, dayOf, pending, assignedEntries, completed);
      if !ok {
        assert Fails(reqs[i], today, dayOf);
        return None;
      }
      WeekBucketSnoc(reqs[..i], r, today, dayOf, "Pending");
      WeekBucketSnoc(reqs[..i], r, today, dayOf, "Assigned");
      WeekBucketSnoc(reqs[..i], r, today, dayOf, "Completed");
      NoFailsSnoc(reqs[..i], r, today, dayOf);
      i := i + 1;
    }
    assert reqs[..|reqs|] == reqs;
    res := Some(WeeklyBuckets(pending, assignedEntries, completed));
  }

  lemma FailsAt(reqs: seq<Record>, i: nat, today: int, dayOf: string -> Option<int>)
    requires i < |reqs| && InWindow(reqs[i], today, dayOf) && NormStatus(Get(reqs[i], "status")).None?
    ensures AnyFails(reqs, today, dayOf)
  {
    assert Fails(reqs[i], today, dayOf);
  }

  lemma NoFailsSnoc(prefix: seq<Record>, r: Record, today: int, dayOf: string -> Option<int>)
    requires !AnyFails(prefix, today, dayOf) && !Fails(r, today, dayOf)
    ensures !AnyFails(prefix + [r], today, dayOf)
  {
    var s := prefix + [r];
    forall i | 0 <= i < |s| ensures !Fails(s[i], today, dayOf) {
      if i < |prefix| {
        assert s[i] == prefix[i];
      }
    }
  }

  // ------------------------------------------------------------- categories

  datatype CategoryRow = CategoryRow(categoryId: Value, categoryName: Value, createdAt: Value, updatedAt: Value)

  function CategoryRowOf(c: Record): CategoryRow {
    CategoryRow(
      Or(Get(c, "id"), Get(c, "categoryID")),
      Or(Or(Get(c, "name"), Get(c, "categoryName")), VStr("—")),
      Get(c, "createdAt"),
      Get(c, "updatedAt"))
  }

  /** `Category.generateReport`: one normalised row per stored category, in order. */
  method CategoryReport(cats: seq<Record>) returns (out: seq<CategoryRow>)
    ensures out == MapSeq(cats, CategoryRowOf)
  {
    out := [];
    var i := 0;
    while i < |cats|
      invariant 0 <= i <= |cats|
      invariant out == MapSeq(cats[..i], CategoryRowOf)
    {
      assert cats[..i + 1] == cats[..i] + [cats[i]];
      MapSnoc(cats[..i], cats[i], CategoryRowOf);
      out := out + [CategoryRowOf(cats[i])];
      i := i + 1;
    }
    assert cats[..|cats|] == cats;
  }

  /** Every stored category gives one row, and every row carries a truthy name. */
  lemma CategoryRowsShape(cats: seq<Record>)
    ensures |MapSeq(cats, CategoryRowOf)| == |cats|
    ensures forall i :: 0 <= i < |cats| ==> Truthy(MapSeq(cats, CategoryRowOf)[i].categoryName)
    ensures forall i :: 0 <= i < |cats| && Truthy(Get(cats[i], "id")) ==>
      MapSeq(cats, CategoryRowOf)[i].categoryId == cats[i]["id"]
  {
    MapIndex(cats, CategoryRowOf);
  }

  // ------------------------------------------------------------- user profiles

  /** One role bucket of the user store: the bucket's key and its accounts, in file order. */
  type UserBuckets = seq<(string, seq<(string, Record)>)>

  datatype UserRow = UserRow(id: Value, name: Value, role: string, status: string, createdAt: Value, updatedAt: Value)

  /** The flattened row of account `uname` in bucket `bucket`; None where `strip` or `lower` would raise. */
  function UserRowOf(bucket: string, uname: string, rec: Record): Option<UserRow> {
    var role := TextOr(Or(Get(rec, "role"), VStr(bucket)), "");
    var status := GetOr(rec, "status", VStr("Active"));
    if role.None? || !status.VStr? then None
    else Some(UserRow(
      Get(rec, "id"),
      Or(Get(rec, "fullName"), VStr(uname)),
      Title(Strip(role.value)),
      if Lower(status.s) == "active" then "Active" else "Inactive",
      Get(rec, "createdAt"),
      Get(rec, "updatedAt")))
  }

  /** The rows of one bucket, in order; None when any of them raises. */
  function BucketRows(bucket: string, accounts: seq<(string, Record)>): Option<seq<UserRow>>
    decreases |accounts|
  {
    if accounts == [] then Some([])
    else
      var prev := BucketRows(bucket, accounts[..|accounts| - 1]);
      var last := accounts[|accounts| - 1];
      var row := UserRowOf(bucket, last.0, last.1);
      if prev.Some? && row.Some? then Some(prev.value + [row.value]) else None
  }

  /** The flattened rows of every bucket, in order; None when any of them raises. */
  function FlatRows(data: UserBuckets): Option<seq<UserRow>>
    decreases |data|
  {
    if data == [] then Some([])
    else
      var prev := FlatRows(data[..|data| - 1]);
      var last := data[|data| - 1];
      var rows := BucketRows(last.0, last.1);
      if prev.Some? && rows.Some? then Some(prev.value + rows.value) else None
  }

  /** One turn of the inner loop: the next account's row is appended, or the bucket raises. */
  lemma BucketRowsSnoc(bucket: string, accounts: seq<(string, Record)>, j: nat)
    requires j < |accounts|
    ensures var row := UserRowOf(bucket, accounts[j].0, accounts[j].1);
      var prev := BucketRows(bucket, accounts[..j]);
      BucketRows(bucket, accounts[..j + 1]) ==
        if prev.Some? && row.Some? then Some(prev.value + [row.value]) else None
  {
    assert accounts[..j + 1][..j] == accounts[..j];
  }

  /** One turn of the outer loop: the next bucket's rows are appended, or the store raises. */
  lemma FlatRowsStep(data: UserBuckets, i: nat)
    requires i < |data|
    ensures var rows := BucketRows(data[i].0, data[i].1);
      var prev := FlatRows(data[..i]);
      FlatRows(data[..i + 1]) ==
        if prev.Some? && rows.Some? then Some(prev.value + rows.value) else None
  {
    assert data[..i + 1][..i] == data[..i];
  }

  lemma {:induction false} BucketRowsFails(bucket: string, accounts: seq<(string, Record)>, j: nat)
    requires j <= |accounts| && BucketRows(bucket, accounts[..j]).None?
    ensures BucketRows(bucket, accounts).None?
    decreases |accounts|
  {
    if j < |accounts| {
      var init := accounts[..|accounts| - 1];
      assert init[..j] == accounts[..j];
      BucketRowsFails(bucket, init, j);
    } else {
      assert accounts[..j] == accounts;
    }
  }

  lemma {:induction false} FlatRowsFails(data: UserBuckets, i: nat)
    requires i <= |data| && FlatRows(data[..i]).None?
    ensures FlatRows(data).None?
    decreases |data|
  {
    if i < |data| {
      var init := data[..|data| - 1];
      assert init[..i] == data[..i];
      FlatRowsFails(init, i);
    } else {
      assert data[..i] == data;
    }
  }

  /** The outer loop of `UserProfile.generateReport`, before the sort; the inner loop is FlattenBucket. */
  method FlattenUsers(data: UserBuckets) returns (res: Option<seq<UserRow>>)
    ensures res == FlatRows(data)
  {
    var flat: seq<UserRow> := [];
    var i := 0;
    while i < |data|
      invariant 0 <= i <= |data|
      invariant FlatRows(data[..i]) == Some(flat)
    {
      var rows := FlattenBucket(data[i].0, data[i].1);
      FlatRowsStep(data, i);
      if rows.None? {
        FlatRowsFails(data, i + 1);
        return None;
      }
      flat := flat + rows.value;
      i := i + 1;
    }
    assert data[..i] == data;
    res := Some(flat);
  }

  /** The inner loop of the flattening: the rows of one role bucket, in order. */
  method FlattenBucket(bucket: string, accounts: seq<(string, Record)>) returns (res: Option<seq<UserRow>>)
    ensures res == BucketRows(bucket, accounts)
  {
    var rows: seq<UserRow> := [];
    var j := 0;
    while j < |accounts|
      invariant 0 <= j <= |accounts|
      invariant BucketRows(bucket, accounts[..j]) == Some(rows)
    {
      BucketRowsSnoc(bucket, accounts, j);
      var row := UserRowOf(bucket, accounts[j].0, accounts[j].1);
      if row.None? {
        BucketRowsFails(bucket, accounts, j + 1);
        return None;
      }
      rows := rows + [row.value];
      j := j + 1;
    }
    assert accounts[..j] == accounts;
    res := Some(rows);
  }

  /** `int(r.get("userProfileID") or 0)`; None where `int` raises. */
  function IdKey(row: UserRow): Option<int> {
    PyInt(Or(row.id, VInt(0)))
  }

  /** `(a.role, int(a.id)) <= (b.role, int(b.id))` */
  predicate RowLe(a: UserRow, b: UserRow) {
    LexLess(a.role, b.role) ||
    (a.role == b.role && IdKey(a).Some? && IdKey(b).Some? && IdKey(a).value <= IdKey(b).value)
  }

  predicate RowsSorted(rows: seq<UserRow>) {
    forall i :: 0 <= i < |rows| - 1 ==> RowLe(rows[i], rows[i + 1])
  }

  /** A sort entry whose key was computed from its own row. */
  predicate WellKeyed(x: Keyed<UserRow>) {
    x.major == x.item.role && IdKey(x.item) == Some(x.minor)
  }

  /** `flat.sort(key=...)`: every key is computed first, so one id `int` rejects raises. */
  method SortUsers(flat: seq<UserRow>) returns (res: Option<seq<UserRow>>)
    ensures res.None? <==> exists i :: 0 <= i < |flat| && IdKey(flat[i]).None?
    ensures res.Some? ==> |res.value| == |flat| && RowsSorted(res.value)
    ensures res.Some? ==> forall x :: x in res.value <==> x in flat
    ensures res.Some? ==> multiset(res.value) == multiset(flat)
  {
    var keyed: seq<Keyed<UserRow>> := [];
    var i := 0;
    while i < |flat|
      invariant 0 <= i <= |flat|
      invariant |keyed| == i
      invariant forall j :: 0 <= j < i ==> keyed[j].item == flat[j] && WellKeyed(keyed[j])
    {
      var k := IdKey(flat[i]);
      if k.None? {
        return None;
      }
      keyed := keyed + [Keyed(flat[i].role, k.value, flat[i])];
      i := i + 1;
    }
    var sorted := SortByKey(keyed);
    var rows := seq(|sorted|, k requires 0 <= k < |sorted| => sorted[k].item);
    SortedRowsOrdered(keyed, sorted, rows);
    SortedRowsSame(flat, keyed, sorted, rows);
    res := Some(rows);
  }

  /** The rows read off a key-sorted list of well-keyed entries are in report order. */
  lemma SortedRowsOrdered(keyed: seq<Keyed<UserRow>>, sorted: seq<Keyed<UserRow>>, rows: seq<UserRow>)
    requires forall j :: 0 <= j < |keyed| ==> WellKeyed(keyed[j])
    requires SortedByKey(sorted) && multiset(sorted) == multiset(keyed)
    requires |rows| == |sorted| && forall k :: 0 <= k < |rows| ==> rows[k] == sorted[k].item
    ensures RowsSorted(rows)
  {
    forall x | x in sorted ensures WellKeyed(x) {
      assert x in multiset(keyed);
    }
    forall k | 0 <= k < |rows| - 1
      ensures RowLe(rows[k], rows[k + 1])
    {
      assert KeyLe(sorted[k], sorted[k + 1]);
      assert sorted[k] in sorted && sorted[k + 1] in sorted;
    }
  }

  /** Sorting keeps the rows: the same rows, each as often as before. */
  lemma SortedRowsSame(flat: seq<UserRow>, keyed: seq<Keyed<UserRow>>, sorted: seq<Keyed<UserRow>>, rows: seq<UserRow>)
    requires |keyed| == |flat| && forall j :: 0 <= j < |keyed| ==> keyed[j].item == flat[j]
    requires multiset(sorted) == multiset(keyed)
    requires |rows| == |sorted| && forall k :: 0 <= k < |rows| ==> rows[k] == sorted[k].item
    ensures multiset(rows) == multiset(flat)
    ensures |rows| == |flat| && forall x :: x in rows <==> x in flat
  {
    var item := (x: Keyed<UserRow>) => x.item;
    MapIndex(keyed, item);
    MapIndex(sorted, item);
    assert MapSeq(keyed, item) == flat;
    assert MapSeq(sorted, item) == rows;
    MapMultiset(sorted, keyed, item);
    assert |rows| == |multiset(rows)| == |multiset(flat)| == |flat|;
    forall x
      ensures x in rows <==> x in flat
    {
      assert x in rows <==> x in multiset(rows);
      assert x in flat <==> x in multiset(flat);
    }
  }

  /** Either the flattening or a sort key raises. */
  predicate UsersFail(data: UserBuckets) {
    FlatRows(data).None? ||
    exists i :: 0 <= i < |FlatRows(data).value| && IdKey(FlatRows(data).value[i]).None?
  }

  /** `UserProfile.generateReport`: the flattened rows, sorted by (role, id). */
  method UserReport(data: UserBuckets) returns (res: Option<seq<UserRow>>)
    ensures res.None? <==> UsersFail(data)
    ensures res.Some? ==> |res.value| == |FlatRows(data).value| && RowsSorted(res.value)
    ensures res.Some? ==> forall x :: x in res.value <==> x in FlatRows(data).value
    ensures res.Some? ==> multiset(res.value) == multiset(FlatRows(data).value)
  {
    var flat := FlattenUsers(data);
    if flat.None? {
      return None;
    }
    res := SortUsers(flat.value);
  }

  // ------------------------------------------------------------- controller and page

  /** What the controller returns: the report text, or Raised when an entity raises. */
  function WeeklyText(cats: seq<Record>, data: UserBuckets, reqs: seq<Record>, today: int,
                      dayOf: string -> Option<int>): Outcome<string>
  {
    if UsersFail(data) || AnyFails(reqs, today, dayOf) then Raised
    else Ok(ReportText("weekly", |cats|, |FlatRows(data).value|,
      |WeekBucket(reqs, today, dayOf, "Pending")|,
      |WeekBucket(reqs, today, dayOf, "Assigned")|,
      |WeekBucket(reqs, today, dayOf, "Completed")|))
  }

  /** `GenerateReportController.generateReport`: categories, users and requests, counted. */
  method GenerateReport(cats: seq<Record>, data: UserBuckets, reqs: seq<Record>, today: int,
                        dayOf: string -> Option<int>) returns (res: Outcome<string>)
    ensures res == WeeklyText(cats, data, reqs, today, dayOf)
  {
    var catRows := CategoryReport(cats);
    MapIndex(cats, CategoryRowOf);
    var users := UserReport(data);
    if users.None? {
      return Raised;
    }
    var summary := RequestReport(reqs, today, dayOf);
    if summary.None? {
      return Raised;
    }
    res := Ok(ReportText("weekly", |catRows|, |users.value|,
      |summary.value.pending|, |summary.value.assignedEntries|, |summary.value.completed|));
  }

  /** `GenerateReportPage.submitGenerateReport`: any option other than 'weekly' is refused. */
  method SubmitGenerateReport(dateOption: Value, cats: seq<Record>, data: UserBuckets, reqs: seq<Record>,
                              today: int, dayOf: string -> Option<int>) returns (res: Outcome<string>)
    ensures TextOr(dateOption, "").None? ==> res == Raised
    ensures TextOr(dateOption, "").Some? && Lower(Strip(TextOr(dateOption, "").value)) != "weekly" ==>
      res == Err(OnlyWeekly)
    ensures TextOr(dateOption, "").Some? && Lower(Strip(TextOr(dateOption, "").value)) == "weekly" ==>
      res == WeeklyText(cats, data, reqs, today, dayOf)
  {
    var opt := TextOr(dateOption, "");
    if opt.None? {
      return Raised;
    }
    if Lower(Strip(opt.value)) != "weekly" {
      return Err(OnlyWeekly);
    }
    res := GenerateReport(cats, data, reqs, today, dayOf);
  }

  // ------------------------------------------------------------- properties

  /** `_norm_status` yields one of the three bucket names, and raises exactly for a truthy non-string. */
  lemma NormStatusRange(raw: Value)
    ensures NormStatus(raw).None? <==> Truthy(raw) && !raw.VStr?
    ensures NormStatus(raw).Some? ==>
      NormStatus(raw).value == "Pending" || NormStatus(raw).value == "Assigned" || NormStatus(raw).value == "Completed"
    ensures !Truthy(raw) ==> NormStatus(raw) == Some("Pending")
  {
    if !Truthy(raw) {
      assert TextOr(raw, "") == Some("");
      assert Strip("") == "";
    }
  }

  /** The status is compared after trimming and lower-casing, so surrounding blanks and case do not matter. */
  lemma NormStatusIgnoresCaseAndBlanks(s: string, t: string)
    requires Lower(Strip(s)) == Lower(Strip(t))
    ensures NormStatus(VStr(s)) == NormStatus(VStr(t))
  {
    assert Strip("") == "";
  }

  /** A few spellings and their buckets. */
  lemma NormStatusExamples()
    ensures NormStatus(VStr("complete")) == Some("Completed")
    ensures NormStatus(VStr("done")) == Some("Pending")
  {
    NoSpaceStrips("complete");
    LowerIdempotent("complete");
    NoSpaceStrips("done");
    LowerIdempotent("done");
  }

  /** Both spellings of "in progress" go to the Assigned bucket. */
  lemma NormStatusInProgress()
    ensures NormStatus(VStr("in progress")) == Some("Assigned")
    ensures NormStatus(VStr("in_progress")) == Some("Assigned")
  {
    var a := "in progress";
    StripFixpoint(a);
    LowerNoUpper(a);
    var b := "in_progress";
    StripFixpoint(b);
    LowerNoUpper(b);
  }

  /** The window holds today and the six days before it, and nothing else. */
  lemma WindowBounds(v: Value, today: int, dayOf: string -> Option<int>)
    ensures !v.VStr? || v.s == "" ==> !InLast7Days(v, today, dayOf)
    ensures v.VStr? && v.s != "" && dayOf(v.s) == Some(today) ==> InLast7Days(v, today, dayOf)
    ensures v.VStr? && v.s != "" && dayOf(v.s) == Some(today - 6) ==> InLast7Days(v, today, dayOf)
    ensures v.VStr? && v.s != "" && dayOf(v.s) == Some(today - 7) ==> !InLast7Days(v, today, dayOf)
    ensures v.VStr? && v.s != "" && dayOf(v.s) == Some(today + 1) ==> !InLast7Days(v, today, dayOf)
  {
  }

  /**
   * Only the first truthy timestamp is consulted: a request updated before
   * the window is left out even when it was created inside it.
   */
  lemma StaleUpdateHidesRecentCreation(r: Record, today: int, dayOf: string -> Option<int>)
    requires Get(r, "updatedAt").VStr? && Get(r, "updatedAt").s != ""
    requires dayOf(Get(r, "updatedAt").s) == Some(today - 30)
    ensures !InWindow(r, today, dayOf)
  {
  }

  /** The three buckets sum to the in-window count, which is at most the number of requests. */
  lemma {:induction false} BucketsPartition(reqs: seq<Record>, today: int, dayOf: string -> Option<int>)
    requires !AnyFails(reqs, today, dayOf)
    ensures |WeekBucket(reqs, today, dayOf, "Pending")| + |WeekBucket(reqs, today, dayOf, "Assigned")| +
            |WeekBucket(reqs, today, dayOf, "Completed")| == |Filter(reqs, InWindowOn(today, dayOf))|
    ensures |Filter(reqs, InWindowOn(today, dayOf))| <= |reqs|
    decreases |reqs|
  {
    if reqs != [] {
      var init, last := reqs[..|reqs| - 1], reqs[|reqs| - 1];
      assert reqs == init + [last];
      NoFailsInit(reqs, today, dayOf);
      BucketsPartition(init, today, dayOf);
      PartitionStep(init, last, today, dayOf);
    }
  }

  /** Appending one request that does not fail adds one to one bucket and to the window, or nothing. */
  lemma PartitionStep(init: seq<Record>, last: Record, today: int, dayOf: string -> Option<int>)
    requires !Fails(last, today, dayOf)
    ensures |WeekBucket(init + [last], today, dayOf, "Pending")| + |WeekBucket(init + [last], today, dayOf, "Assigned")| +
            |WeekBucket(init + [last], today, dayOf, "Completed")| ==
            |WeekBucket(init, today, dayOf, "Pending")| + |WeekBucket(init, today, dayOf, "Assigned")| +
            |WeekBucket(init, today, dayOf, "Completed")| + (if InWindow(last, today, dayOf) then 1 else 0)
    ensures |Filter(init + [last], InWindowOn(today, dayOf))| ==
            |Filter(init, InWindowOn(today, dayOf))| + (if InWindow(last, today, dayOf) then 1 else 0)
  {
    BucketLength(init, last, today, dayOf, "Pending");
    BucketLength(init, last, today, dayOf, "Assigned");
    BucketLength(init, last, today, dayOf, "Completed");
    FilterSnoc(init, last, InWindowOn(today, dayOf));
    LandsInOneBucket(last, today, dayOf);
  }

  lemma NoFailsInit(reqs: seq<Record>, today: int, dayOf: string -> Option<int>)
    requires reqs != [] && !AnyFails(reqs, today, dayOf)
    ensures !AnyFails(reqs[..|reqs| - 1], today, dayOf) && !Fails(reqs[|reqs| - 1], today, dayOf)
  {
    var init := reqs[..|reqs| - 1];
    forall i | 0 <= i < |init| ensures !Fails(init[i], today, dayOf) {
      assert init[i] == reqs[i];
    }
  }

  lemma BucketLength(reqs: seq<Record>, r: Record, today: int, dayOf: string -> Option<int>, b: string)
    ensures |WeekBucket(reqs + [r], today, dayOf, b)| ==
      |WeekBucket(reqs, today, dayOf, b)| + (if LandsIn(r, today, dayOf, b) then 1 else 0)
  {
    WeekBucketSnoc(reqs, r, today, dayOf, b);
  }

  /** A request that does not fail lands in exactly one bucket when it is in the window, else in none. */
  lemma LandsInOneBucket(r: Record, today: int, dayOf: string -> Option<int>)
    requires !Fails(r, today, dayOf)
    ensures (if LandsIn(r, today, dayOf, "Pending") then 1 else 0) +
      (if LandsIn(r, today, dayOf, "Assigned") then 1 else 0) +
      (if LandsIn(r, today, dayOf, "Completed") then 1 else 0) == (if InWindow(r, today, dayOf) then 1 else 0)
  {
    NormStatusRange(Get(r, "status"));
  }

  lemma SummaryOfLanded(r: Record, today: int, dayOf: string -> Option<int>, b: string)
    requires LandsIn(r, today, dayOf, b)
    ensures SummaryOf(r, today, dayOf).requestStatus == b
    ensures today - 6 <= SummaryOf(r, today, dayOf).requestDay <= today
  {
  }

  /** Each entry sits in its own bucket and records the day its timestamp parsed to. */
  lemma EntriesMatchBucket(reqs: seq<Record>, today: int, dayOf: string -> Option<int>, b: string)
    ensures forall k :: 0 <= k < |WeekBucket(reqs, today, dayOf, b)| ==>
      WeekBucket(reqs, today, dayOf, b)[k].requestStatus == b &&
      today - 6 <= WeekBucket(reqs, today, dayOf, b)[k].requestDay <= today
  {
    var f := Filter(reqs, Lands(today, dayOf, b));
    FilterProperties(reqs, Lands(today, dayOf, b));
    MapIndex(f, Summary(today, dayOf));
    forall k | 0 <= k < |f|
      ensures MapSeq(f, Summary(today, dayOf))[k].requestStatus == b
      ensures today - 6 <= MapSeq(f, Summary(today, dayOf))[k].requestDay <= today
    {
      assert f[k] in f;
      assert Lands(today, dayOf, b)(f[k]);
      SummaryOfLanded(f[k], today, dayOf, b);
    }
  }
}
