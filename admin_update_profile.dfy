/**
 * The user admin renames a user profile (UserStory8): the controller looks
 * the id up first, and the entity gives the first profile with the id the
 * new name and reports the old and the new name.
 */
module AdminUpdateProfile {
  import opened PyValue
  import opened Seqs

  const ProfileNotFound := "User profile not found."

  /** `{"userProfileID", "userProfileName", "userRole"}` */
  datatype NamedProfile = NamedProfile(profileId: int, profileName: string, userRole: string)

  function Seed(): seq<NamedProfile> {
    [NamedProfile(1, "Alice", "CSR"), NamedProfile(2, "Bob", "PIN"), NamedProfile(3, "Clara", "Admin")]
  }

  function IdIs(id: int): NamedProfile -> bool {
    (p: NamedProfile) => p.profileId == id
  }

  /** Profile `k` is the first with the id. */
  predicate FirstWithId(profiles: seq<NamedProfile>, id: int, k: int) {
    0 <= k < |profiles| && profiles[k].profileId == id && forall j :: 0 <= j < k ==> profiles[j].profileId != id
  }

  function Updated(oldName: string, newName: string): string {
    "Profile updated successfully! (" + oldName + " \U{2192} " + newName + ")"
  }

  /** The entity's reply and its table afterwards. */
  function UpdateStep(profiles: seq<NamedProfile>, id: int, newName: string): Reply<NamedProfile> {
    match FirstIndex(profiles, IdIs(id))
    case None => Reply(ProfileNotFound, profiles)
    case Some(k) => Reply(Updated(profiles[k].profileName, newName), profiles[k := profiles[k].(profileName := newName)])
  }

  /** The controller's reply: the lookup first, then the entity's update. */
  function SubmitStep(profiles: seq<NamedProfile>, id: int, newName: string): Reply<NamedProfile> {
    if FirstIndex(profiles, IdIs(id)).None? then Reply(ProfileNotFound, profiles)
    else UpdateStep(profiles, id, newName)
  }

  class UserProfile {
    var userProfiles: seq<NamedProfile>

    constructor()
      ensures userProfiles == Seed()
    {
      userProfiles := Seed();
    }

    /** `UserProfile.findProfile`: the first profile with the id, or None. */
    method FindProfile(id: int) returns (r: Option<NamedProfile>)
      ensures r.None? <==> forall j :: 0 <= j < |userProfiles| ==> userProfiles[j].profileId != id
      ensures r.Some? ==> exists k :: FirstWithId(userProfiles, id, k) && userProfiles[k] == r.value
    {
      var i := 0;
      while i < |userProfiles|
        invariant 0 <= i <= |userProfiles|
        invariant forall j :: 0 <= j < i ==> userProfiles[j].profileId != id
      {
        if userProfiles[i].profileId == id {
          return Some(userProfiles[i]);
        }
        i := i + 1;
      }
      r := None;
    }

    /** `UserProfile.updateProfile` */
    method UpdateProfile(id: int, newName: string) returns (msg: string)
      modifies this
      ensures Reply(msg, userProfiles) == UpdateStep(old(userProfiles), id, newName)
    {
      var i := 0;
      while i < |userProfiles|
        invariant 0 <= i <= |userProfiles|
        invariant userProfiles == old(userProfiles)
        invariant forall j :: 0 <= j < i ==> userProfiles[j].profileId != id
      {
        if userProfiles[i].profileId == id {
          assert IdIs(id)(userProfiles[i]);
          assert forall j :: 0 <= j < i ==> !IdIs(id)(userProfiles[j]);
          var oldName := userProfiles[i].profileName;
          userProfiles := userProfiles[i := userProfiles[i].(profileName := newName)];
          return Updated(oldName, newName);
        }
        i := i + 1;
      }
      assert forall j :: 0 <= j < |userProfiles| ==> !IdIs(id)(userProfiles[j]);
      msg := ProfileNotFound;
    }
  }

  /** `UpdateProfileController.submitUpdate`, which the page calls unchanged. */
  method SubmitUpdate(store: UserProfile, id: int, newName: string) returns (msg: string)
    modifies store
    ensures Reply(msg, store.userProfiles) == SubmitStep(old(store.userProfiles), id, newName)
  {
    var user := store.FindProfile(id);
    if user.None? {
      assert forall j :: 0 <= j < |store.userProfiles| ==> !IdIs(id)(store.userProfiles[j]);
      return ProfileNotFound;
    }
    ghost var k :| 0 <= k < |store.userProfiles| && store.userProfiles[k] == user.value;
    assert IdIs(id)(store.userProfiles[k]);
    msg := store.UpdateProfile(id, newName);
  }

  /** The controller's own lookup never changes the outcome: it answers as the entity would. */
  lemma LookupRedundant(profiles: seq<NamedProfile>, id: int, newName: string)
    ensures SubmitStep(profiles, id, newName) == UpdateStep(profiles, id, newName)
  {
  }

  /**
   * Only the name of the first profile with the id changes, and the reply
   * names the old and the new name; an unknown id changes nothing.
   */
  lemma OnlyNameChanges(profiles: seq<NamedProfile>, id: int, newName: string)
    ensures |UpdateStep(profiles, id, newName).items| == |profiles|
    ensures (forall j :: 0 <= j < |profiles| ==> profiles[j].profileId != id) ==>
      UpdateStep(profiles, id, newName) == Reply(ProfileNotFound, profiles)
    ensures forall k :: FirstWithId(profiles, id, k) ==>
      var r := UpdateStep(profiles, id, newName);
      r.items[k] == profiles[k].(profileName := newName) &&
      (forall j :: 0 <= j < |profiles| && j != k ==> r.items[j] == profiles[j]) &&
      Contains(r.message, profiles[k].profileName) && Contains(r.message, newName)
  {
    if forall j :: 0 <= j < |profiles| ==> profiles[j].profileId != id {
      assert forall j :: 0 <= j < |profiles| ==> !IdIs(id)(profiles[j]);
    }
    forall k | FirstWithId(profiles, id, k)
      ensures Contains(UpdateStep(profiles, id, newName).message, profiles[k].profileName)
      ensures Contains(UpdateStep(profiles, id, newName).message, newName)
      ensures FirstIndex(profiles, IdIs(id)) == Some(k)
    {
      assert IdIs(id)(profiles[k]);
      assert forall j :: 0 <= j < k ==> !IdIs(id)(profiles[j]);
      MessageNamesBoth(profiles[k].profileName, newName);
    }
  }

  lemma MessageNamesBoth(oldName: string, newName: string)
    ensures Contains(Updated(oldName, newName), oldName) && Contains(Updated(oldName, newName), newName)
  {
    ContainsMiddle("Profile updated successfully! (", oldName, " \U{2192} " + newName + ")");
    assert Updated(oldName, newName) == "Profile updated successfully! (" + oldName + (" \U{2192} " + newName + ")");
    ContainsMiddle("Profile updated successfully! (" + oldName + " \U{2192} ", newName, ")");
  }

  /** Renaming twice leaves the table as renaming once to the second name. */
  lemma LastRenameWins(profiles: seq<NamedProfile>, id: int, a: string, b: string)
    ensures UpdateStep(UpdateStep(profiles, id, a).items, id, b).items == UpdateStep(profiles, id, b).items
  {
    var k := FirstIndex(profiles, IdIs(id));
    if k.Some? {
      var once := UpdateStep(profiles, id, a).items;
      assert forall j :: 0 <= j < k.value ==> once[j] == profiles[j];
      assert IdIs(id)(once[k.value]);
      assert FirstIndex(once, IdIs(id)) == Some(k.value);
    }
  }
}
