/**
 * What the three platform reports (UserStory38, 39 and 40) share: the
 * six-line report text, and the grouping of requests into the Pending,
 * Assigned and Completed buckets.
 */
module Report {
  import opened PyValue
  import opened Seqs

  /** One count line, `f"{caption}: {n}"`. */
  function Line(caption: string, n: nat): string {
    caption + ": " + IntToString(n)
  }

  /** The six lines of a report. */
  function ReportLines(kind: string, categories: nat, users: nat, pending: nat, assignedCount: nat, completed: nat)
    : seq<string>
  {
    ["Report (" + kind + ")",
     Line("Categories", categories),
     Line("UserProfiles", users),
     Line("Requests Pending", pending),
     Line("Requests Assigned", assignedCount),
     Line("Requests Completed", completed)]
  }

  /** The report the controllers return: its lines joined by newlines. */
  function ReportText(kind: string, categories: nat, users: nat, pending: nat, assignedCount: nat, completed: nat)
    : string
  {
    Join("\n", ReportLines(kind, categories, users, pending, assignedCount, completed))
  }

  /** The text after the last space, when the tail holds no space. */
  lemma {:induction false} AfterLastSpace(a: string, b: string)
    requires ' ' !in b
    ensures AfterLast(a + " " + b, ' ') == b
    decreases |a|
  {
    var s := a + " " + b;
    var k := IndexOf(s, ' ');
    assert s[..|a|] == a;
    if ' ' in a {
      var j := IndexOf(a, ' ');
      assert s[j] == ' ';
      assert s[..j] == s[..|a|][..j];
      assert s[..j] == a[..j];
      assert k == j;
      assert s[k + 1..] == a[j + 1..] + " " + b;
      AfterLastSpace(a[j + 1..], b);
    } else {
      assert s[|a|] == ' ';
      assert s[..|a|] == a;
      assert k == |a| && s[k + 1..] == b;
    }
  }

  lemma CountShape(n: nat)
    ensures ' ' !in IntToString(n) && '\n' !in IntToString(n)
    ensures ParseInt(IntToString(n)) == Some(n)
  {
    NatToStringDigits(n);
    ParseIntToString(n);
  }

  lemma LineHasNoNewline(caption: string, n: nat)
    requires '\n' !in caption
    ensures '\n' !in Line(caption, n)
  {
    CountShape(n);
  }

  /** A count line's count is the number after its last space. */
  lemma LineShape(caption: string, n: nat)
    ensures ParseInt(AfterLast(Line(caption, n), ' ')) == Some(n)
  {
    CountShape(n);
    assert Line(caption, n) == (caption + ":") + " " + IntToString(n);
    AfterLastSpace(caption + ":", IntToString(n));
  }

  /** The report splits back into its six lines. */
  lemma ReportSplits(kind: string, categories: nat, users: nat, pending: nat, assignedCount: nat, completed: nat)
    requires '\n' !in kind
    ensures Split(ReportText(kind, categories, users, pending, assignedCount, completed), '\n') ==
      ReportLines(kind, categories, users, pending, assignedCount, completed)
  {
    LineHasNoNewline("Categories", categories);
    LineHasNoNewline("UserProfiles", users);
    LineHasNoNewline("Requests Pending", pending);
    LineHasNoNewline("Requests Assigned", assignedCount);
    LineHasNoNewline("Requests Completed", completed);
    assert '\n' !in "Report (" && '\n' !in ")";
    SixLines("Report (" + kind + ")", Line("Categories", categories), Line("UserProfiles", users),
      Line("Requests Pending", pending), Line("Requests Assigned", assignedCount),
      Line("Requests Completed", completed));
  }

  lemma SixLines(a: string, b: string, c: string, d: string, e: string, f: string)
    requires '\n' !in a && '\n' !in b && '\n' !in c && '\n' !in d && '\n' !in e && '\n' !in f
    ensures Split(Join("\n", [a, b, c, d, e, f]), '\n') == [a, b, c, d, e, f]
  {
    var l := [a, b, c, d, e, f];
    assert forall i :: 0 <= i < |l| ==> '\n' !in l[i];
    SplitJoin('\n', l);
  }

  // ------------------------------------------------------------- buckets

  /** A seeded request, with the fields the daily and monthly reports read. */
  datatype SeedRequest = SeedRequest(requestId: int, title: string, category: string, status: string, date: string)

  /** `{"requestDate": ..., "requestStatus": ...}` */
  datatype Entry = Entry(requestDate: string, requestStatus: string)

  function EntryOf(r: SeedRequest): Entry {
    Entry(r.date, r.status)
  }

  function StatusIs(status: string): SeedRequest -> bool {
    (r: SeedRequest) => r.status == status
  }

  /** The entries of the requests whose status is exactly `status`, in list order. */
  function Bucket(reqs: seq<SeedRequest>, status: string): seq<Entry> {
    MapSeq(Filter(reqs, StatusIs(status)), EntryOf)
  }

  predicate Known(r: SeedRequest) {
    r.status == "Pending" || r.status == "Assigned" || r.status == "Completed"
  }

  lemma BucketSnoc(reqs: seq<SeedRequest>, r: SeedRequest, status: string)
    ensures Bucket(reqs + [r], status) == Bucket(reqs, status) + (if r.status == status then [EntryOf(r)] else [])
  {
    FilterSnoc(reqs, r, StatusIs(status));
    var f := Filter(reqs, StatusIs(status));
    assert StatusIs(status)(r) == (r.status == status);
    if r.status == status {
      assert Filter(reqs + [r], StatusIs(status)) == f + [r];
      MapSnoc(f, r, EntryOf);
    } else {
      assert Filter(reqs + [r], StatusIs(status)) == f;
    }
  }

  /** The size of a bucket of a four-request list, request by request. */
  lemma BucketOfFour(a: SeedRequest, b: SeedRequest, c: SeedRequest, d: SeedRequest, status: string)
    ensures |Bucket([a, b, c, d], status)| ==
      (if a.status == status then 1 else 0) + (if b.status == status then 1 else 0) +
      (if c.status == status then 1 else 0) + (if d.status == status then 1 else 0)
  {
    BucketSnoc([], a, status);
    assert [a] == [] + [a];
    BucketSnoc([a], b, status);
    assert [a, b] == [a] + [b];
    BucketSnoc([a, b], c, status);
    assert [a, b, c] == [a, b] + [c];
    BucketSnoc([a, b, c], d, status);
    assert [a, b, c, d] == [a, b, c] + [d];
  }

  /** `Request.generateReport` of the seeded reports: one pass appending to the bucket named by the status. */
  method Buckets(reqs: seq<SeedRequest>) returns (pending: seq<Entry>, assignedList: seq<Entry>, completed: seq<Entry>)
    ensures pending == Bucket(reqs, "Pending")
    ensures assignedList == Bucket(reqs, "Assigned")
    ensures completed == Bucket(reqs, "Completed")
  {
    pending, assignedList, completed := [], [], [];
    var i := 0;
    while i < |reqs|
      invariant 0 <= i <= |reqs|
      invariant pending == Bucket(reqs[..i], "Pending")
      invariant assignedList == Bucket(reqs[..i], "Assigned")
      invariant completed == Bucket(reqs[..i], "Completed")
    {
      var r := reqs[i];
      assert reqs[..i + 1] == reqs[..i] + [r];
      BucketSnoc(reqs[..i], r, "Pending");
      BucketSnoc(reqs[..i], r, "Assigned");
      BucketSnoc(reqs[..i], r, "Completed");
      if r.status == "Pending" {
        pending := pending + [EntryOf(r)];
      } else if r.status == "Assigned" {
        assignedList := assignedList + [EntryOf(r)];
      } else if r.status == "Completed" {
        completed := completed + [EntryOf(r)];
      }
      i := i + 1;
    }
    assert reqs[..|reqs|] == reqs;
  }

  /**
   * The buckets hold each request with a known status exactly once: their
   * sizes add up to the number of such requests, which is at most the total.
   */
  lemma {:induction false} BucketsPartition(reqs: seq<SeedRequest>)
    ensures |Bucket(reqs, "Pending")| + |Bucket(reqs, "Assigned")| + |Bucket(reqs, "Completed")| ==
      |Filter(reqs, Known)|
    ensures |Filter(reqs, Known)| <= |reqs|
    decreases |reqs|
  {
    var f := Filter(reqs, StatusIs("Pending"));
    var g := Filter(reqs, StatusIs("Assigned"));
    var h := Filter(reqs, StatusIs("Completed"));
    MapIndex(f, EntryOf);
    MapIndex(g, EntryOf);
    MapIndex(h, EntryOf);
    FilterProperties(reqs, Known);
    if reqs != [] {
      var init := reqs[..|reqs| - 1];
      BucketsPartition(init);
      MapIndex(Filter(init, StatusIs("Pending")), EntryOf);
      MapIndex(Filter(init, StatusIs("Assigned")), EntryOf);
      MapIndex(Filter(init, StatusIs("Completed")), EntryOf);
    }
  }
}
