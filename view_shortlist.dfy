/**
 * A CSR views the shortlist (UserStory21): every shortlisted request,
 * in stored order, projected to the fields the page shows.
 */
module ViewShortlist {
  import opened PyValue
  import opened Seqs
  import Shortlist

  const NoLoader := "Error: load_requests function not provided."

  /** The dict built for each shortlisted request; only 'time' has a default. */
  datatype ShortlistItem = ShortlistItem(
    id: Value, title: Value, category: Value, status: Value, description: Value, date: Value,
    time: Value, location: Value, owner: Value, assignee: Value, created: Value)

  function Item(r: Record): ShortlistItem {
    ShortlistItem(
      Get(r, "id"), Get(r, "title"), Get(r, "category"), Get(r, "status"), Get(r, "description"),
      Get(r, "date"), GetOr(r, "time", VStr("")), Get(r, "location"), Get(r, "owner"),
      Get(r, "assignee"), Get(r, "created"))
  }

  function Shortlisted(): Record -> bool {
    r => Shortlist.IsShortlisted(r)
  }

  /** `Request.getShortlist` */
  method EntityGetShortlist(loaded: Option<seq<Record>>) returns (res: Outcome<seq<ShortlistItem>>)
    ensures loaded.None? ==> res == Err(NoLoader)
    ensures loaded.Some? ==> res == Ok(MapSeq(Filter(loaded.value, Shortlisted()), Item))
  {
    if loaded.None? {
      return Err(NoLoader);
    }
    var all := loaded.value;
    var items: seq<ShortlistItem> := [];
    var i := 0;
    while i < |all|
      invariant 0 <= i <= |all|
      invariant items == MapSeq(Filter(all[..i], Shortlisted()), Item)
    {
      var req := all[i];
      var found := Shortlist.ShortlistSignal(req);
      assert Shortlisted()(req) == found;
      FilterSnoc(all[..i], req, Shortlisted());
      assert all[..i + 1] == all[..i] + [req];
      if found {
        assert Filter(all[..i + 1], Shortlisted()) == Filter(all[..i], Shortlisted()) + [req];
        MapSnoc(Filter(all[..i], Shortlisted()), req, Item);
        items := items + [Item(req)];
      } else {
        assert Filter(all[..i + 1], Shortlisted()) == Filter(all[..i], Shortlisted());
      }
      i := i + 1;
    }
    assert all[..|all|] == all;
    res := Ok(items);
  }

  /** `ViewShortlistController.getShortlist` hands the loader to the entity. */
  method GetShortlist(loaded: Option<seq<Record>>) returns (res: Outcome<seq<ShortlistItem>>)
    ensures loaded.None? ==> res == Err(NoLoader)
    ensures loaded.Some? ==> res == Ok(MapSeq(Filter(loaded.value, Shortlisted()), Item))
  {
    res := EntityGetShortlist(loaded);
  }

  /**
   * The list shows one item per shortlisted request: every item comes from a
   * shortlisted request and every shortlisted request has its item.
   */
  lemma ShortlistExact(all: seq<Record>)
    ensures forall r :: r in all && Shortlist.IsShortlisted(r) ==>
      Item(r) in MapSeq(Filter(all, Shortlisted()), Item)
    ensures forall x :: x in MapSeq(Filter(all, Shortlisted()), Item) ==>
      exists r :: r in all && Shortlist.IsShortlisted(r) && x == Item(r)
    ensures |MapSeq(Filter(all, Shortlisted()), Item)| <= |all|
  {
    var f := Filter(all, Shortlisted());
    FilterProperties(all, Shortlisted());
    MapIndex(f, Item);
    forall r | r in all && Shortlist.IsShortlisted(r)
      ensures Item(r) in MapSeq(f, Item)
    {
      var j :| 0 <= j < |f| && f[j] == r;
      assert MapSeq(f, Item)[j] == Item(r);
    }
    forall x | x in MapSeq(f, Item)
      ensures exists r :: r in all && Shortlist.IsShortlisted(r) && x == Item(r)
    {
      var j :| 0 <= j < |MapSeq(f, Item)| && MapSeq(f, Item)[j] == x;
      assert f[j] in f;
    }
  }
}
