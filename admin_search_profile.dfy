/**
 * The user admin searches the user profiles (UserStory10): the first
 * profile whose id equals the given id, or whose name equals the given
 * name ignoring case, is shown on one line.
 */
module AdminSearchProfile {
  import opened PyValue
  import opened Seqs
  import opened AdminAccount

  const NoMatch := "Error: No matching user found."

  function Seed(): seq<Profile> {
    [Profile(1, "Alice", "CSR", "Active"), Profile(2, "Bob", "PIN", "Suspended"), Profile(3, "Clara", "Admin", "Active")]
  }

  /** The entity's test for one profile. */
  predicate Hit(p: Profile, id: int, name: string) {
    p.profileId == id || Lower(p.profileName) == Lower(name)
  }

  function HitOn(id: int, name: string): Profile -> bool {
    (p: Profile) => Hit(p, id, name)
  }

  /** `UserProfile.searchProfile`: the first hit, or None. */
  function SearchProfile(profiles: seq<Profile>, id: int, name: string): Option<Profile> {
    match FirstIndex(profiles, HitOn(id, name))
    case None => None
    case Some(k) => Some(profiles[k])
  }

  function FoundLine(p: Profile): string {
    "User Found \U{2192} ID: " + IntToString(p.profileId) + ", Name: " + p.profileName +
    ", Role: " + p.userRole + ", Status: " + p.status
  }

  /** `SearchProfileController.searchProfile`, which the page returns unchanged. */
  function SearchText(profiles: seq<Profile>, id: int, name: string): string {
    match SearchProfile(profiles, id, name)
    case None => NoMatch
    case Some(p) => FoundLine(p)
  }

  /** The search returns the first hit, and None exactly when no profile is a hit. */
  lemma SearchFirstHit(profiles: seq<Profile>, id: int, name: string)
    ensures SearchProfile(profiles, id, name).None? <==> forall j :: 0 <= j < |profiles| ==> !Hit(profiles[j], id, name)
    ensures SearchProfile(profiles, id, name).Some? ==>
      exists k :: 0 <= k < |profiles| && SearchProfile(profiles, id, name).value == profiles[k] &&
        Hit(profiles[k], id, name) && forall j :: 0 <= j < k ==> !Hit(profiles[j], id, name)
  {
    var f := FirstIndex(profiles, HitOn(id, name));
    if f.Some? {
      assert HitOn(id, name)(profiles[f.value]);
      assert forall j :: 0 <= j < f.value ==> !HitOn(id, name)(profiles[j]);
    } else {
      assert forall j :: 0 <= j < |profiles| ==> !HitOn(id, name)(profiles[j]);
    }
  }

  /** The reply is the no-match error exactly when no profile is a hit. */
  lemma TextExact(profiles: seq<Profile>, id: int, name: string)
    ensures SearchText(profiles, id, name) == NoMatch <==> forall j :: 0 <= j < |profiles| ==> !Hit(profiles[j], id, name)
  {
    SearchFirstHit(profiles, id, name);
    var r := SearchProfile(profiles, id, name);
    if r.Some? {
      assert FoundLine(r.value)[0] == 'U';
    }
  }

  /** The name is matched ignoring case. */
  lemma NameIgnoresCase(profiles: seq<Profile>, id: int, name: string)
    ensures SearchProfile(profiles, id, Upper(name)) == SearchProfile(profiles, id, name)
  {
    LowerOfUpper(name);
    assert forall p :: HitOn(id, Upper(name))(p) == HitOn(id, name)(p);
    FirstIndexSame(profiles, HitOn(id, Upper(name)), HitOn(id, name));
  }

  /**
   * An earlier profile that matches by name wins over a later one that
   * matches by id: in the seeded table, id 3 with the name "bob" finds Bob.
   */
  lemma EarlierNameWins()
    ensures SearchProfile(Seed(), 3, "bob") == Some(Seed()[1])
    ensures SearchProfile(Seed(), 3, "") == Some(Seed()[2])
  {
    var s := Seed();
    assert Lower("Bob") == "bob" && Lower("bob") == "bob";
    assert |Lower("Alice")| == 5 && |Lower("")| == 0;
    assert !HitOn(3, "bob")(s[0]) && HitOn(3, "bob")(s[1]);
    assert !HitOn(3, "")(s[0]) && !HitOn(3, "")(s[1]) && HitOn(3, "")(s[2]);
  }
}
