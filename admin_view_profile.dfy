/**
 * The user admin views a user profile (UserStory7): the page refuses the
 * falsy id 0, and the entity formats the first profile with the id, one
 * field per line, or answers that no profile was found.
 */
module AdminViewProfile {
  import opened PyValue
  import opened Seqs
  import opened AdminAccount

  const InvalidId := "Error: Please enter a valid User Profile ID."
  const NoProfile := "No user profile found."
  const Header := "--- User Profile Found ---"

  function Seed(): seq<Profile> {
    [Profile(101, "John Doe", "Admin", "Active"), Profile(102, "Mary Tan", "Manager", "Active"),
     Profile(103, "Alex Lim", "CSR", "Inactive")]
  }

  function IdIs(id: int): Profile -> bool {
    (p: Profile) => p.profileId == id
  }

  /** The lines of the formatted profile after its leading newline. */
  function ProfileLines(p: Profile): seq<string> {
    [Header, "User Profile ID: " + IntToString(p.profileId), "User Profile Name: " + p.profileName,
     "User Role: " + p.userRole, "Status: " + p.status]
  }

  /** The entity's formatted profile: a leading newline, then each line followed by a newline. */
  function ProfileText(p: Profile): string {
    "\n" + Terminated(ProfileLines(p))
  }

  /** `UserProfile.getProfileDetails`, which the controller returns unchanged. */
  function GetProfileDetails(profiles: seq<Profile>, id: int): string {
    match FirstIndex(profiles, IdIs(id))
    case None => NoProfile
    case Some(k) => ProfileText(profiles[k])
  }

  /** `ViewProfilePage.getProfileDetails` */
  function PageDetails(profiles: seq<Profile>, id: int): string {
    if id == 0 then InvalidId else GetProfileDetails(profiles, id)
  }

  /** No line of the formatted profile holds a newline when no field does. */
  lemma LinesHaveNoNewline(p: Profile)
    requires '\n' !in p.profileName && '\n' !in p.userRole && '\n' !in p.status
    ensures forall i :: 0 <= i < |ProfileLines(p)| ==> '\n' !in ProfileLines(p)[i]
  {
    IntToStringShape(p.profileId);
  }

  /** Text after a leading newline splits as an empty piece, then the pieces of the rest. */
  lemma SplitAfterNewline(body: string)
    ensures Split("\n" + body, '\n') == [""] + Split(body, '\n')
  {
    var s := "\n" + body;
    assert s[0] == '\n' && IndexOf(s, '\n') == 0;
    assert s[1..] == body;
  }

  /**
   * When no field holds a newline, splitting the reply at newlines gives
   * back the header and one "label: value" line per field.
   */
  lemma ProfileTextReadsBack(p: Profile)
    requires '\n' !in p.profileName && '\n' !in p.userRole && '\n' !in p.status
    ensures Split(ProfileText(p), '\n') == [""] + ProfileLines(p) + [""]
  {
    LinesHaveNoNewline(p);
    SplitTerminated(ProfileLines(p));
    SplitAfterNewline(Terminated(ProfileLines(p)));
  }

  /** A profile is shown exactly when one has the id, and it is the first such profile. */
  lemma DetailsExact(profiles: seq<Profile>, id: int)
    ensures GetProfileDetails(profiles, id) == NoProfile <==>
      forall j :: 0 <= j < |profiles| ==> profiles[j].profileId != id
    ensures GetProfileDetails(profiles, id) != NoProfile ==>
      exists k :: 0 <= k < |profiles| && profiles[k].profileId == id &&
        (forall j :: 0 <= j < k ==> profiles[j].profileId != id) &&
        GetProfileDetails(profiles, id) == ProfileText(profiles[k])
  {
    var k := FirstIndex(profiles, IdIs(id));
    if k.Some? {
      assert IdIs(id)(profiles[k.value]);
      assert forall j :: 0 <= j < k.value ==> !IdIs(id)(profiles[j]);
      assert ProfileText(profiles[k.value])[0] == '\n';
    } else {
      assert forall j :: 0 <= j < |profiles| ==> !IdIs(id)(profiles[j]);
    }
  }

  /** Id 0 is refused by the page even though no profile has it. */
  lemma ZeroRefused(profiles: seq<Profile>)
    ensures PageDetails(profiles, 0) == InvalidId
    ensures PageDetails(Seed(), 103) == ProfileText(Seed()[2])
  {
    assert !IdIs(103)(Seed()[0]) && !IdIs(103)(Seed()[1]) && IdIs(103)(Seed()[2]);
  }
}
