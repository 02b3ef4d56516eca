/**
 * The category routes of the JSON service (app.py): the load that seeds an
 * empty file with three categories, and create, update and delete.  A route
 * takes the list `load_json` read and answers with its JSON reply and what
 * the file holds after the call's last `save_json`.  The `now_iso()` stamp
 * is the parameter `now`, one stamp per call.
 */
module AppCategories {
  import opened PyValue
  import opened Seqs
  import AppIds

  /**
   * A route's answer: a status and the object `jsonify` sends; a delete's
   * `{"ok": True, "deleted": id}`; an error object `{"error": error}`; the
   * 409 of a delete, `{"error": InUse, "usageCount": n}`; or an exception
   * (status 500).
   */
  datatype Reply =
    | Json(code: int, body: Record)
    | Removed(deleted: Value)
    | Refused(code: int, error: string)
    | Blocked(usageCount: nat)
    | Crash

  /** A route's reply and the file after the call (None: never written). */
  datatype Effect = Effect(reply: Reply, saved: Option<seq<Record>>)

  const NameRequired := "Category name is required"
  const DuplicateName := "Duplicate category name"
  const NotFound := "Not found"
  const InUse := "Category is in use by existing requests."

  /** A category as create and the seed write it: never updated yet. */
  function Category(id: string, name: string, desc: string, visibility: string, now: string): Record {
    map["id" := VStr(id), "name" := VStr(name), "desc" := VStr(desc), "visibility" := VStr(visibility),
        "createdAt" := VStr(now), "updatedAt" := VNone]
  }

  // ------------------------------------------------------------------ loading

  /** The three categories `_seed_categories_if_empty` writes into an empty file. */
  function Seed(now: string): seq<Record> {
    [ Category("CAT-001", "Transportation", "Rides to appointments and errands", "public", now),
      Category("CAT-002", "Home Repair", "Minor household maintenance and repairs", "public", now),
      Category("CAT-003", "Check-in / Companionship", "Calls or visits to check on wellbeing", "hidden", now) ]
  }

  /** `_load_categories`: the stored list, or the seed when the file holds an empty list. */
  function Loaded(stored: seq<Record>, now: string): seq<Record> {
    if stored == [] then Seed(now) else stored
  }

  /** The file after `_load_categories` alone: only an empty list is overwritten, by the seed. */
  function LoadWrites(stored: seq<Record>, now: string): Option<seq<Record>> {
    if stored == [] then Some(Seed(now)) else None
  }

  method LoadCategories(stored: seq<Record>, now: string) returns (cats: seq<Record>, saved: Option<seq<Record>>)
    ensures cats == Loaded(stored, now) && saved == LoadWrites(stored, now)
    ensures saved.Some? ==> saved.value == cats
  {
    if stored != [] {
      return stored, None;
    }
    var seed := Seed(now);
    cats, saved := seed, Some(seed);
  }

  /**
   * Loading never yields an empty list: a non-empty file is read as it is,
   * an empty one becomes CAT-001 to CAT-003, the third of them hidden.
   */
  lemma LoadedExact(stored: seq<Record>, now: string)
    ensures stored != [] ==> Loaded(stored, now) == stored && LoadWrites(stored, now).None?
    ensures stored == [] ==> LoadWrites(stored, now) == Some(Loaded(stored, now))
    ensures stored == [] ==> var cats := Loaded(stored, now);
      |cats| == 3 &&
      cats[0]["id"] == VStr("CAT-001") && cats[1]["id"] == VStr("CAT-002") && cats[2]["id"] == VStr("CAT-003") &&
      cats[0]["visibility"] == cats[1]["visibility"] == VStr("public") && cats[2]["visibility"] == VStr("hidden") &&
      forall j :: 0 <= j < 3 ==> cats[j]["createdAt"] == VStr(now) && cats[j]["updatedAt"] == VNone
    ensures Loaded(stored, now) != []
  {
  }

  // ------------------------------------------------------------------ create

  /** `(body.get(k) or dflt).strip()`; None where a truthy non-str has no `strip`. */
  function Field(body: Record, k: string, dflt: string): Option<string> {
    match TextOr(Get(body, k), dflt)
    case None => None
    case Some(t) => Some(Strip(t))
  }

  /** `(c.get("name") or "")` of a stored category; None where it is a truthy non-str with no `lower`. */
  function StoredName(c: Record): Option<string> {
    TextOr(Get(c, "name"), "")
  }

  /** The stored category's name, in lower case, is `key`. */
  predicate Clashes(c: Record, key: string) {
    StoredName(c).Some? && Lower(StoredName(c).value) == key
  }

  /** Reading the stored category's name raises. */
  predicate NameRaises(c: Record) {
    StoredName(c).None?
  }

  /**
   * `any(c for c in cats if (c.get("name") or "").lower() == key)`: true at
   * the first clash, None where a name before it raises.
   */
  function NameClash(cats: seq<Record>, key: string): Option<bool>
    decreases |cats|
  {
    if cats == [] then Some(false)
    else
      match StoredName(cats[0])
      case None => None
      case Some(n) => if Lower(n) == key then Some(true) else NameClash(cats[1..], key)
  }

  /** The coercion of the trimmed, lower-cased visibility: anything but 'hidden' is 'public'. */
  function Visibility(v: string): string {
    if v == "public" || v == "hidden" then v else "public"
  }

  /** The file after a route that loaded: the route's own save, or else what loading wrote. */
  function After(stored: seq<Record>, now: string, saved: Option<seq<Record>>): Option<seq<Record>> {
    if saved.Some? then saved else LoadWrites(stored, now)
  }

  /** Create on the loaded list, once the fields are read and the name is not blank. */
  function CreateIn(cats: seq<Record>, name: string, desc: string, vis: string, now: string): Effect {
    match NameClash(cats, Lower(name))
    case None => Effect(Crash, None)
    case Some(true) => Effect(Refused(400, DuplicateName), None)
    case Some(false) =>
      var cat := Category(AppIds.CatId(cats), name, desc, Visibility(Lower(vis)), now);
      Effect(Json(201, cat), Some(cats + [cat]))
  }

  /** The specification of `api_categories_create`. */
  function CreateRoute(stored: seq<Record>, body: Record, now: string): Effect {
    var name, desc, vis := Field(body, "name", ""), Field(body, "desc", ""), Field(body, "visibility", "public");
    if name.None? || desc.None? || vis.None? then Effect(Crash, None)
    else if name.value == "" then Effect(Refused(400, NameRequired), None)
    else
      var e := CreateIn(Loaded(stored, now), name.value, desc.value, vis.value, now);
      Effect(e.reply, After(stored, now, e.saved))
  }

  /** The generator `any()` consumes, stopping at the first clash. */
  method ScanNames(cats: seq<Record>, key: string) returns (clash: Option<bool>)
    ensures clash == NameClash(cats, key)
  {
    var i := 0;
    while i < |cats|
      invariant 0 <= i <= |cats|
      invariant NameClash(cats, key) == NameClash(cats[i..], key)
    {
      assert cats[i..][1..] == cats[i + 1..];
      var n := StoredName(cats[i]);
      if n.None? {
        return None;
      }
      if Lower(n.value) == key {
        return Some(true);
      }
      i := i + 1;
    }
    clash := Some(false);
  }

  method CreateCategory(cats: seq<Record>, name: string, desc: string, vis: string, now: string)
    returns (reply: Reply, saved: Option<seq<Record>>)
    ensures Effect(reply, saved) == CreateIn(cats, name, desc, vis, now)
  {
    var visibility := Visibility(Lower(vis));
    var clash := ScanNames(cats, Lower(name));
    if clash.None? {
      return Crash, None;
    }
    if clash.value {
      return Refused(400, DuplicateName), None;
    }
    var id := AppIds.NextCatId(cats);
    var cat := Category(id, name, desc, visibility, now);
    reply, saved := Json(201, cat), Some(cats + [cat]);
  }

  method ApiCategoriesCreate(stored: seq<Record>, body: Record, now: string)
    returns (reply: Reply, saved: Option<seq<Record>>)
    ensures Effect(reply, saved) == CreateRoute(stored, body, now)
  {
    var name := Field(body, "name", "");
    var desc := Field(body, "desc", "");
    var vis := Field(body, "visibility", "public");
    if name.None? || desc.None? || vis.None? {
      return Crash, None;
    }
    if name.value == "" {
      return Refused(400, NameRequired), None;
    }
    var cats, seeded := LoadCategories(stored, now);
    reply, saved := CreateCategory(cats, name.value, desc.value, vis.value, now);
    if saved.None? {
      saved := seeded;
    }
  }

  /**
   * The scan reads the names in order up to the first one that clashes or
   * raises: it is false when none does, and true exactly when a clash comes
   * before any raising name.
   */
  lemma {:induction false} NameClashExact(cats: seq<Record>, key: string)
    ensures NameClash(cats, key) == Some(false) <==>
      forall j :: 0 <= j < |cats| ==> !NameRaises(cats[j]) && !Clashes(cats[j], key)
    ensures NameClash(cats, key) == Some(true) <==>
      exists j :: 0 <= j < |cats| && Clashes(cats[j], key) && forall i :: 0 <= i < j ==> !NameRaises(cats[i])
    decreases |cats|
  {
    if cats != [] {
      var rest := cats[1..];
      NameClashExact(rest, key);
      assert forall j :: 1 <= j < |cats| ==> cats[j] == rest[j - 1];
      if NameClash(cats, key) == Some(true) && !Clashes(cats[0], key) {
        var j :| 0 <= j < |rest| && Clashes(rest[j], key) && forall i :: 0 <= i < j ==> !NameRaises(rest[i]);
        assert Clashes(cats[j + 1], key);
      }
      if exists j :: 0 <= j < |cats| && Clashes(cats[j], key) && forall i :: 0 <= i < j ==> !NameRaises(cats[i]) {
        var j :| 0 <= j < |cats| && Clashes(cats[j], key) && forall i :: 0 <= i < j ==> !NameRaises(cats[i]);
        if j > 0 {
          assert !NameRaises(cats[0]);
          if !Clashes(cats[0], key) {
            assert Clashes(rest[j - 1], key) && forall i :: 0 <= i < j - 1 ==> !NameRaises(rest[i]);
          }
        }
      }
    }
  }

  /**
   * Create refuses, with 400 "Duplicate category name" and no save, exactly
   * when a stored name equal to the new one ignoring case comes before any
   * name that raises; it raises when such a name comes first.
   */
  lemma CreateInRefuses(cats: seq<Record>, name: string, desc: string, vis: string, now: string)
    ensures var e := CreateIn(cats, name, desc, vis, now);
      (e.reply == Refused(400, DuplicateName) <==>
        exists j :: 0 <= j < |cats| && Clashes(cats[j], Lower(name)) && forall i :: 0 <= i < j ==> !NameRaises(cats[i])) &&
      (e.reply.Json? <==> forall j :: 0 <= j < |cats| ==> !NameRaises(cats[j]) && !Clashes(cats[j], Lower(name))) &&
      (!e.reply.Json? ==> e.saved.None?)
  {
    NameClashExact(cats, Lower(name));
  }

  /** The fields of a new category, and no others. */
  lemma CategoryFields(id: string, name: string, desc: string, visibility: string, now: string)
    ensures var c := Category(id, name, desc, visibility, now);
      c.Keys == {"id", "name", "desc", "visibility", "createdAt", "updatedAt"} &&
      c["id"] == VStr(id) && c["name"] == VStr(name) && c["desc"] == VStr(desc) &&
      c["visibility"] == VStr(visibility) && c["createdAt"] == VStr(now) && c["updatedAt"] == VNone
  {
  }

  /** The coerced visibility is 'public' or 'hidden', and the requested one when it is one of those. */
  lemma VisibilityExact(v: string)
    ensures Visibility(v) in {"public", "hidden"}
    ensures v in {"public", "hidden"} <==> Visibility(v) == v
  {
  }

  /**
   * A create that succeeds appends exactly one category: the given name and
   * description, the coerced visibility, the stamp, no update yet, and an id
   * that no stored category has and that reads one past the largest stored
   * suffix.
   */
  lemma CreateInAppends(cats: seq<Record>, name: string, desc: string, vis: string, now: string)
    ensures var e := CreateIn(cats, name, desc, vis, now);
      e.reply.Json? ==>
        e.reply.code == 201 && e.saved == Some(cats + [e.reply.body]) &&
        e.reply.body == Category(AppIds.CatId(cats), name, desc, Visibility(Lower(vis)), now) &&
        ParseInt(AfterLast(AppIds.CatId(cats), '-')) == Some(AppIds.MaxSuffix(cats) + 1) &&
        forall j :: 0 <= j < |cats| ==> !HasId(cats[j], AppIds.CatId(cats))
  {
    AppIds.CatIdFresh(cats);
    NoStoredHasNewId(cats);
  }

  /**
   * The route reads the trimmed name, description and visibility first: a
   * blank name is 400 "Category name is required" before anything is
   * loaded or written, and a `strip` that raises writes nothing either.
   */
  lemma CreateRouteRefuses(stored: seq<Record>, body: Record, now: string)
    ensures var e := CreateRoute(stored, body, now);
      var name, desc, vis := Field(body, "name", ""), Field(body, "desc", ""), Field(body, "visibility", "public");
      (name == Some("") && desc.Some? && vis.Some? ==> e == Effect(Refused(400, NameRequired), None)) &&
      (name.None? || desc.None? || vis.None? ==> e == Effect(Crash, None))
  {
  }

  /**
   * Past those checks the route creates on the loaded list with a trimmed,
   * non-blank name, and the file ends up as that create saved it or, when
   * it saved nothing, as the load left it.
   */
  lemma CreateRouteLoads(stored: seq<Record>, body: Record, now: string)
    requires Field(body, "name", "").Some? && Field(body, "name", "").value != ""
    requires Field(body, "desc", "").Some? && Field(body, "visibility", "public").Some?
    ensures var e := CreateRoute(stored, body, now);
      var name := Field(body, "name", "").value;
      var inner := CreateIn(Loaded(stored, now), name, Field(body, "desc", "").value, Field(body, "visibility", "public").value, now);
      Strip(name) == name &&
      e.reply == inner.reply &&
      e.saved == (if inner.saved.Some? then inner.saved else LoadWrites(stored, now))
  {
    StripIdempotent(TextOr(Get(body, "name"), "").value);
  }

  // ------------------------------------------------------------------ update and delete

  /** `str(c.get("id")) == str(cat_id)` */
  predicate HasId(c: Record, catId: string) {
    Str(Get(c, "id")) == catId
  }

  function HasIdOn(catId: string): Record -> bool {
    (c: Record) => HasId(c, catId)
  }

  /** `(body.get("visibility") or "").strip().lower() or None`, None standing for no change. */
  function NewVisibility(body: Record): Option<Option<string>> {
    match Field(body, "visibility", "")
    case None => None
    case Some(v) => Some(if Lower(v) == "" then None else Some(Lower(v)))
  }

  /** The category after update. */
  function Updated(c: Record, name: string, desc: string, vis: Option<string>, now: string): Record {
    var named := if name != "" then c["name" := VStr(name)] else c;
    var described := named["desc" := VStr(desc)];
    var shown := if vis == Some("public") || vis == Some("hidden") then described["visibility" := VStr(vis.value)] else described;
    shown["updatedAt" := VStr(now)]
  }

  /**
   * Update replaces the name only by a non-blank one, always replaces the
   * description (blank when the body has none), replaces the visibility
   * only by 'public' or 'hidden', renews the stamp, and keeps every other
   * field; it adds no field but those.
   */
  lemma UpdatedExact(c: Record, name: string, desc: string, vis: Option<string>, now: string)
    ensures var u := Updated(c, name, desc, vis, now);
      Get(u, "name") == (if name != "" then VStr(name) else Get(c, "name")) &&
      Get(u, "desc") == VStr(desc) &&
      Get(u, "visibility") == (if vis == Some("public") || vis == Some("hidden") then VStr(vis.value) else Get(c, "visibility")) &&
      Get(u, "updatedAt") == VStr(now) &&
      u.Keys == c.Keys + {"desc", "updatedAt"} + (if name != "" then {"name"} else {}) +
        (if vis == Some("public") || vis == Some("hidden") then {"visibility"} else {}) &&
      forall f :: f in c && f != "name" && f != "desc" && f != "visibility" && f != "updatedAt" ==> u[f] == c[f]
  {
  }

  /** Update on the loaded list, once the fields are read. */
  function UpdateIn(cats: seq<Record>, catId: string, name: string, desc: string, vis: Option<string>, now: string): Effect {
    match FirstIndex(cats, HasIdOn(catId))
    case None => Effect(Refused(404, NotFound), None)
    case Some(k) =>
      var c := Updated(cats[k], name, desc, vis, now);
      Effect(Json(200, c), Some(cats[k := c]))
  }

  /** The specification of `api_categories_update`. */
  function UpdateRoute(stored: seq<Record>, catId: string, body: Record, now: string): Effect {
    var name, desc, vis := Field(body, "name", ""), Field(body, "desc", ""), NewVisibility(body);
    if name.None? || desc.None? || vis.None? then Effect(Crash, None)
    else
      var e := UpdateIn(Loaded(stored, now), catId, name.value, desc.value, vis.value, now);
      Effect(e.reply, After(stored, now, e.saved))
  }

  method UpdateCategory(cats: seq<Record>, catId: string, name: string, desc: string, vis: Option<string>, now: string)
    returns (reply: Reply, saved: Option<seq<Record>>)
    ensures Effect(reply, saved) == UpdateIn(cats, catId, name, desc, vis, now)
  {
    var idx := FindFirst(cats, HasIdOn(catId));
    if idx.None? {
      return Refused(404, NotFound), None;
    }
    var k := idx.value;
    var c := cats[k];
    if name != "" {
      c := c["name" := VStr(name)];
    }
    c := c["desc" := VStr(desc)];
    if vis == Some("public") || vis == Some("hidden") {
      c := c["visibility" := VStr(vis.value)];
    }
    c := c["updatedAt" := VStr(now)];
    reply, saved := Json(200, c), Some(cats[k := c]);
  }

  method ApiCategoriesUpdate(stored: seq<Record>, catId: string, body: Record, now: string)
    returns (reply: Reply, saved: Option<seq<Record>>)
    ensures Effect(reply, saved) == UpdateRoute(stored, catId, body, now)
  {
    var name := Field(body, "name", "");
    var desc := Field(body, "desc", "");
    var vis := NewVisibility(body);
    if name.None? || desc.None? || vis.None? {
      return Crash, None;
    }
    var cats, seeded := LoadCategories(stored, now);
    reply, saved := UpdateCategory(cats, catId, name.value, desc.value, vis.value, now);
    if saved.None? {
      saved := seeded;
    }
  }

  /**
   * Update answers 404, saving nothing, when no category has the id, and
   * otherwise rewrites exactly the first one that has it, leaving every
   * other category as it was.  Unlike create it does not look for a
   * duplicate name.
   */
  lemma UpdateInExact(cats: seq<Record>, catId: string, name: string, desc: string, vis: Option<string>, now: string)
    ensures var e := UpdateIn(cats, catId, name, desc, vis, now);
      (e.reply == Refused(404, NotFound) <==> forall j :: 0 <= j < |cats| ==> !HasId(cats[j], catId)) &&
      (e.reply.Json? <==> exists j :: 0 <= j < |cats| && HasId(cats[j], catId)) &&
      (!e.reply.Json? ==> e.saved.None?)
    ensures var e := UpdateIn(cats, catId, name, desc, vis, now);
      e.reply.Json? ==>
        var k := FirstIndex(cats, HasIdOn(catId)).value;
        HasId(cats[k], catId) && (forall j :: 0 <= j < k ==> !HasId(cats[j], catId)) &&
        e.reply.code == 200 && e.reply.body == Updated(cats[k], name, desc, vis, now) &&
        e.saved.Some? && |e.saved.value| == |cats| && e.saved.value[k] == e.reply.body &&
        (forall j :: 0 <= j < |cats| && j != k ==> e.saved.value[j] == cats[j])
  {
  }

  /** `str(r.get("categoryId")) == str(cat_id)` */
  predicate UsesCategory(r: Record, catId: string) {
    Str(Get(r, "categoryId")) == catId
  }

  function UsesCategoryOn(catId: string): Record -> bool {
    (r: Record) => UsesCategory(r, catId)
  }

  /** `[r for r in reqs if str(r.get("categoryId")) == str(cat_id)]` */
  function InUseBy(reqs: seq<Record>, catId: string): seq<Record> {
    Filter(reqs, UsesCategoryOn(catId))
  }

  /** Delete on the loaded list, `reqs` being the request file. */
  function DeleteIn(cats: seq<Record>, reqs: seq<Record>, catId: string): Effect {
    match FirstIndex(cats, HasIdOn(catId))
    case None => Effect(Refused(404, NotFound), None)
    case Some(k) =>
      var inUse := InUseBy(reqs, catId);
      if inUse != [] then Effect(Blocked(|inUse|), None)
      else Effect(Removed(Get(cats[k], "id")), Some(cats[..k] + cats[k + 1..]))
  }

  /** The specification of `api_categories_delete`. */
  function DeleteRoute(stored: seq<Record>, reqs: seq<Record>, catId: string, now: string): Effect {
    var e := DeleteIn(Loaded(stored, now), reqs, catId);
    Effect(e.reply, After(stored, now, e.saved))
  }

  /** The list comprehension that collects the requests using the category. */
  method CollectInUse(reqs: seq<Record>, catId: string) returns (inUse: seq<Record>)
    ensures inUse == InUseBy(reqs, catId)
  {
    inUse := [];
    var i := 0;
    while i < |reqs|
      invariant 0 <= i <= |reqs|
      invariant inUse == Filter(reqs[..i], UsesCategoryOn(catId))
    {
      assert reqs[..i + 1] == reqs[..i] + [reqs[i]];
      assert reqs[..i + 1][..i] == reqs[..i];
      if UsesCategory(reqs[i], catId) {
        inUse := inUse + [reqs[i]];
      }
      i := i + 1;
    }
    assert reqs[..|reqs|] == reqs;
  }

  method DeleteCategory(cats: seq<Record>, reqs: seq<Record>, catId: string)
    returns (reply: Reply, saved: Option<seq<Record>>)
    ensures Effect(reply, saved) == DeleteIn(cats, reqs, catId)
  {
    var idx := FindFirst(cats, HasIdOn(catId));
    if idx.None? {
      return Refused(404, NotFound), None;
    }
    var inUse := CollectInUse(reqs, catId);
    if inUse != [] {
      return Blocked(|inUse|), None;
    }
    var k := idx.value;
    var removed := cats[k];
    reply, saved := Removed(Get(removed, "id")), Some(cats[..k] + cats[k + 1..]);
  }

  method ApiCategoriesDelete(stored: seq<Record>, reqs: seq<Record>, catId: string, now: string)
    returns (reply: Reply, saved: Option<seq<Record>>)
    ensures Effect(reply, saved) == DeleteRoute(stored, reqs, catId, now)
  {
    var cats, seeded := LoadCategories(stored, now);
    reply, saved := DeleteCategory(cats, reqs, catId);
    if saved.None? {
      saved := seeded;
    }
  }

  /**
   * Delete answers 404 to an unknown id; with the id known, it answers 409
   * with `usageCount` the number of requests whose category id reads as
   * this id when there is one.  Neither saves.
   */
  lemma DeleteInRefuses(cats: seq<Record>, reqs: seq<Record>, catId: string)
    ensures var e := DeleteIn(cats, reqs, catId);
      (e.reply == Refused(404, NotFound) <==> forall j :: 0 <= j < |cats| ==> !HasId(cats[j], catId)) &&
      (e.reply.Blocked? <==>
        (exists j :: 0 <= j < |cats| && HasId(cats[j], catId)) &&
        (exists i :: 0 <= i < |reqs| && UsesCategory(reqs[i], catId))) &&
      (e.reply.Blocked? ==>
        e.reply.usageCount == |InUseBy(reqs, catId)| &&
        0 < e.reply.usageCount <= |reqs| &&
        (forall r :: r in InUseBy(reqs, catId) <==> r in reqs && UsesCategory(r, catId))) &&
      (!e.reply.Removed? ==> e.saved.None?)
  {
    var uses := UsesCategoryOn(catId);
    FilterProperties(reqs, uses);
    var inUse := InUseBy(reqs, catId);
    var idx := FirstIndex(cats, HasIdOn(catId));
    if idx.Some? {
      assert HasId(cats[idx.value], catId);
      if inUse != [] {
        assert inUse[0] in reqs && UsesCategory(inUse[0], catId);
      } else {
        NoneInUse(reqs, catId);
      }
    } else {
      forall j | 0 <= j < |cats| ensures !HasId(cats[j], catId) {
        assert !HasIdOn(catId)(cats[j]);
      }
    }
  }

  /**
   * A delete that succeeds removes exactly the first category with the id,
   * keeping the others in order, no request uses the id, and it answers
   * with that category's id.
   */
  lemma DeleteInRemoves(cats: seq<Record>, reqs: seq<Record>, catId: string)
    ensures var e := DeleteIn(cats, reqs, catId);
      e.reply.Removed? ==>
        var k := FirstIndex(cats, HasIdOn(catId)).value;
        HasId(cats[k], catId) && (forall j :: 0 <= j < k ==> !HasId(cats[j], catId)) &&
        (forall i :: 0 <= i < |reqs| ==> !UsesCategory(reqs[i], catId)) &&
        e.reply.deleted == Get(cats[k], "id") &&
        e.saved == Some(cats[..k] + cats[k + 1..]) &&
        |e.saved.value| == |cats| - 1 &&
        (forall j :: 0 <= j < k ==> e.saved.value[j] == cats[j]) &&
        (forall j :: k <= j < |e.saved.value| ==> e.saved.value[j] == cats[j + 1]) &&
        multiset(e.saved.value) + multiset{cats[k]} == multiset(cats)
  {
    var idx := FirstIndex(cats, HasIdOn(catId));
    if idx.Some? && InUseBy(reqs, catId) == [] {
      var k := idx.value;
      assert DeleteIn(cats, reqs, catId) == Effect(Removed(Get(cats[k], "id")), Some(cats[..k] + cats[k + 1..]));
      assert HasIdOn(catId)(cats[k]);
      assert forall j :: 0 <= j < k ==> !HasIdOn(catId)(cats[j]);
      NoneInUse(reqs, catId);
      PopAt(cats, k);
    }
  }

  /** When no request was collected, none uses the category. */
  lemma NoneInUse(reqs: seq<Record>, catId: string)
    requires InUseBy(reqs, catId) == []
    ensures forall i :: 0 <= i < |reqs| ==> !UsesCategory(reqs[i], catId)
  {
    FilterEmpty(reqs, UsesCategoryOn(catId));
    forall i | 0 <= i < |reqs| ensures !UsesCategory(reqs[i], catId) {
      assert !UsesCategoryOn(catId)(reqs[i]);
    }
  }

  /**
   * A category just created can be deleted by its id while no request uses
   * it, and the list is then what it was before the create.
   */
  lemma CreateThenDelete(cats: seq<Record>, name: string, desc: string, vis: string, now: string, reqs: seq<Record>)
    requires CreateIn(cats, name, desc, vis, now).reply.Json?
    requires forall i :: 0 <= i < |reqs| ==> !UsesCategory(reqs[i], AppIds.CatId(cats))
    ensures DeleteIn(CreateIn(cats, name, desc, vis, now).saved.value, reqs, AppIds.CatId(cats)).saved == Some(cats)
  {
    var id := AppIds.CatId(cats);
    var cat := Category(id, name, desc, Visibility(Lower(vis)), now);
    assert CreateIn(cats, name, desc, vis, now).saved == Some(cats + [cat]);
    NoStoredHasNewId(cats);
    assert HasId(cat, id);
    LastFirstMatch(cats, cat, id);
    FilterNone(reqs, UsesCategoryOn(id));
    DropLast(cats, cat);
  }

  /** No stored category's id reads as the next category id. */
  lemma NoStoredHasNewId(cats: seq<Record>)
    ensures forall j :: 0 <= j < |cats| ==> !HasId(cats[j], AppIds.CatId(cats))
  {
    var id := AppIds.CatId(cats);
    AppIds.CatIdFresh(cats);
    forall j | 0 <= j < |cats| ensures !HasId(cats[j], id) {
      if "id" !in cats[j] {
        assert Str(Get(cats[j], "id")) == "None";
        assert id[0] == 'C';
      }
    }
  }

  lemma LastFirstMatch(cats: seq<Record>, cat: Record, id: string)
    requires forall j :: 0 <= j < |cats| ==> !HasId(cats[j], id)
    requires HasId(cat, id)
    ensures FirstIndex(cats + [cat], HasIdOn(id)) == Some(|cats|)
  {
    var after := cats + [cat];
    assert forall j :: 0 <= j < |cats| ==> after[j] == cats[j];
    FirstIndexAt(after, HasIdOn(id), |cats|);
  }

  lemma DropLast<T>(s: seq<T>, x: T)
    ensures (s + [x])[..|s|] + (s + [x])[|s| + 1..] == s
  {
    assert (s + [x])[..|s|] == s;
    assert (s + [x])[|s| + 1..] == [];
  }
}
