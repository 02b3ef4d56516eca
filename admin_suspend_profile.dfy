/**
 * The user admin suspends a user profile (UserStory9): the page asks for a
 * confirmation, the controller looks the id up and requires the given name
 * to equal the profile's name ignoring case, and the entity suspends the
 * first profile with the id unless it already is suspended.
 */
module AdminSuspendProfile {
  import opened PyValue
  import opened Seqs
  import opened AdminAccount

  const ProfileNotFound := "User profile not found."
  const NameMismatch := "User name does not match ID."
  const AlreadySuspended := "Profile is already suspended."
  const Cancelled := "Suspension cancelled."

  function Seed(): seq<Profile> {
    [Profile(1, "Alice", "CSR", "Active"), Profile(2, "Bob", "PIN", "Active"), Profile(3, "Clara", "Admin", "Active")]
  }

  function IdIs(id: int): Profile -> bool {
    (p: Profile) => p.profileId == id
  }

  function SuspendedMsg(name: string): string {
    "Profile " + name + " suspended successfully."
  }

  /** The entity's reply and its table afterwards. */
  function SuspendStep(profiles: seq<Profile>, id: int): Reply<Profile> {
    match FirstIndex(profiles, IdIs(id))
    case None => Reply(ProfileNotFound, profiles)
    case Some(k) =>
      if profiles[k].status == "Suspended" then Reply(AlreadySuspended, profiles)
      else Reply(SuspendedMsg(profiles[k].profileName), profiles[k := profiles[k].(status := "Suspended")])
  }

  /** The controller's reply: the lookup and the name check come first. */
  function ControllerStep(profiles: seq<Profile>, id: int, name: string): Reply<Profile> {
    match FirstIndex(profiles, IdIs(id))
    case None => Reply(ProfileNotFound, profiles)
    case Some(k) =>
      if Lower(profiles[k].profileName) != Lower(name) then Reply(NameMismatch, profiles)
      else SuspendStep(profiles, id)
  }

  /** The page's reply: nothing happens unless the admin confirms. */
  function PageStep(profiles: seq<Profile>, id: int, name: string, confirmed: bool): Reply<Profile> {
    if !confirmed then Reply(Cancelled, profiles) else ControllerStep(profiles, id, name)
  }

  class UserProfile {
    var userProfiles: seq<Profile>

    constructor()
      ensures userProfiles == Seed()
    {
      userProfiles := Seed();
    }

    /** `UserProfile.findProfile`: the first profile with the id, or None. */
    method FindProfile(id: int) returns (r: Option<Profile>)
      ensures r == (match FirstIndex(userProfiles, IdIs(id)) case None => None case Some(k) => Some(userProfiles[k]))
    {
      var i := 0;
      while i < |userProfiles|
        invariant 0 <= i <= |userProfiles|
        invariant forall j :: 0 <= j < i ==> !IdIs(id)(userProfiles[j])
      {
        if userProfiles[i].profileId == id {
          assert IdIs(id)(userProfiles[i]);
          return Some(userProfiles[i]);
        }
        i := i + 1;
      }
      r := None;
    }

    /** `UserProfile.suspendProfile` */
    method SuspendProfile(id: int) returns (msg: string)
      modifies this
      ensures Reply(msg, userProfiles) == SuspendStep(old(userProfiles), id)
    {
      var i := 0;
      while i < |userProfiles|
        invariant 0 <= i <= |userProfiles|
        invariant userProfiles == old(userProfiles)
        invariant forall j :: 0 <= j < i ==> !IdIs(id)(userProfiles[j])
      {
        if userProfiles[i].profileId == id {
          assert IdIs(id)(userProfiles[i]);
          if userProfiles[i].status == "Suspended" {
            return AlreadySuspended;
          }
          userProfiles := userProfiles[i := userProfiles[i].(status := "Suspended")];
          return SuspendedMsg(userProfiles[i].profileName);
        }
        i := i + 1;
      }
      msg := ProfileNotFound;
    }
  }

  /** `SuspendProfileController.suspendProfile` */
  method ControllerSuspend(store: UserProfile, id: int, name: string) returns (msg: string)
    modifies store
    ensures Reply(msg, store.userProfiles) == ControllerStep(old(store.userProfiles), id, name)
  {
    var user := store.FindProfile(id);
    if user.None? {
      return ProfileNotFound;
    }
    if Lower(user.value.profileName) != Lower(name) {
      return NameMismatch;
    }
    msg := store.SuspendProfile(id);
  }

  /**
   * `SuspendProfilePage.suspendProfile`: the id, the name and the answer to
   * the confirmation prompt, which the source reads from the console, are
   * parameters here.
   */
  method PageSuspend(store: UserProfile, id: int, name: string, confirmed: bool) returns (msg: string)
    modifies store
    ensures Reply(msg, store.userProfiles) == PageStep(old(store.userProfiles), id, name, confirmed)
  {
    if !confirmed {
      return Cancelled;
    }
    msg := ControllerSuspend(store, id, name);
  }

  /** Suspending twice: the second request reports the profile already suspended and changes nothing. */
  lemma SuspendIdempotent(profiles: seq<Profile>, id: int, name: string)
    requires ControllerStep(profiles, id, name).message != ProfileNotFound
    requires ControllerStep(profiles, id, name).message != NameMismatch
    ensures var once := ControllerStep(profiles, id, name).items;
      ControllerStep(once, id, name) == Reply(AlreadySuspended, once)
  {
    var k := FirstIndex(profiles, IdIs(id)).value;
    var once := ControllerStep(profiles, id, name).items;
    assert forall j :: 0 <= j < k ==> once[j] == profiles[j];
    assert IdIs(id)(once[k]);
    assert FirstIndex(once, IdIs(id)) == Some(k);
  }

  /**
   * The suspension happens exactly when the first profile with the id has
   * the name ignoring case and is not yet suspended, and then only its
   * status changes; every refusal leaves the table as it was.
   */
  lemma SuspendExact(profiles: seq<Profile>, id: int, name: string)
    ensures |ControllerStep(profiles, id, name).items| == |profiles|
    ensures ControllerStep(profiles, id, name).items != profiles <==> exists k :: Suspendable(profiles, id, name, k)
    ensures forall k :: Suspendable(profiles, id, name, k) ==>
      var r := ControllerStep(profiles, id, name);
      r.message == SuspendedMsg(profiles[k].profileName) && r.items == profiles[k := profiles[k].(status := "Suspended")]
  {
    var f := FirstIndex(profiles, IdIs(id));
    if f.Some? {
      var k := f.value;
      assert FirstWithId(profiles, id, k) by {
        assert IdIs(id)(profiles[k]);
        assert forall j :: 0 <= j < k ==> !IdIs(id)(profiles[j]);
      }
      FirstWithIdUnique(profiles, id, k);
      if Lower(profiles[k].profileName) == Lower(name) && profiles[k].status != "Suspended" {
        assert Suspendable(profiles, id, name, k);
        assert ControllerStep(profiles, id, name).items[k] != profiles[k];
      }
    }
    NoFirstWithoutMatch(profiles, id);
  }

  /** Profile `k` is the first with the id. */
  predicate FirstWithId(profiles: seq<Profile>, id: int, k: int) {
    0 <= k < |profiles| && profiles[k].profileId == id && forall j :: 0 <= j < k ==> profiles[j].profileId != id
  }

  /** Profile `k` is the first with the id, has the name ignoring case and is not yet suspended. */
  predicate Suspendable(profiles: seq<Profile>, id: int, name: string, k: int) {
    FirstWithId(profiles, id, k) && Lower(profiles[k].profileName) == Lower(name) && profiles[k].status != "Suspended"
  }

  lemma NoFirstWithoutMatch(profiles: seq<Profile>, id: int)
    ensures FirstIndex(profiles, IdIs(id)).None? ==> forall k :: !FirstWithId(profiles, id, k)
  {
    forall k | FirstWithId(profiles, id, k) ensures FirstIndex(profiles, IdIs(id)).Some? {
      assert IdIs(id)(profiles[k]);
    }
  }

  lemma FirstWithIdUnique(profiles: seq<Profile>, id: int, k: int)
    requires FirstWithId(profiles, id, k)
    ensures forall m :: FirstWithId(profiles, id, m) ==> m == k
  {
  }

  /** The name is compared ignoring case, so an upper-cased name is accepted too. */
  lemma NameIgnoresCase(profiles: seq<Profile>, id: int, name: string)
    ensures ControllerStep(profiles, id, Upper(name)) == ControllerStep(profiles, id, name)
  {
    LowerOfUpper(name);
  }
}
