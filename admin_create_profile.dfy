/**
 * The user admin creates a user account with a profile (UserStory6): the
 * page refuses any empty field, and the entity refuses a username or an
 * e-mail that an existing account already has; otherwise it appends the
 * account.  The table starts empty.
 */
module AdminCreateProfile {
  import opened PyValue

  const InvalidInput := "Error: Invalid input. All fields are required."

  /** `{"fullName", "email", "username", "password", "userRole", "status"}` */
  datatype ProfileAccount = ProfileAccount(fullName: string, email: string, username: string,
                                           password: string, userRole: string, status: string)

  datatype Step = Step(message: string, accounts: seq<ProfileAccount>)

  function AlreadyExists(username: string, email: string): string {
    "Error: Account with username '" + username + "' or email '" + email + "' already exists."
  }

  function Created(fullName: string, status: string): string {
    "Account '" + fullName + "' created successfully with status " + status + "."
  }

  /** Some account has the username or the e-mail. */
  predicate Clashes(accounts: seq<ProfileAccount>, username: string, email: string) {
    exists i :: 0 <= i < |accounts| && (accounts[i].username == username || accounts[i].email == email)
  }

  /** The entity's reply and its table afterwards. */
  function CreateStep(accounts: seq<ProfileAccount>, a: ProfileAccount): Step {
    if Clashes(accounts, a.username, a.email) then Step(AlreadyExists(a.username, a.email), accounts)
    else Step(Created(a.fullName, a.status), accounts + [a])
  }

  /** Every field is non-empty. */
  predicate AllFilled(a: ProfileAccount) {
    a.fullName != "" && a.email != "" && a.username != "" && a.password != "" && a.userRole != "" && a.status != ""
  }

  /** The page's reply. */
  function SubmitStep(accounts: seq<ProfileAccount>, a: ProfileAccount): Step {
    if !AllFilled(a) then Step(InvalidInput, accounts) else CreateStep(accounts, a)
  }

  /** No two accounts share a username, and no two share an e-mail. */
  predicate UniqueLogins(accounts: seq<ProfileAccount>) {
    forall i, j :: 0 <= i < j < |accounts| ==>
      accounts[i].username != accounts[j].username && accounts[i].email != accounts[j].email
  }

  class UserAccount {
    var accounts: seq<ProfileAccount>

    constructor()
      ensures accounts == []
    {
      accounts := [];
    }

    /** `UserAccount.createProfile`: the clash loop, then the append. */
    method CreateProfile(fullName: string, email: string, username: string, password: string,
                         userRole: string, status: string) returns (msg: string)
      modifies this
      ensures Step(msg, accounts) ==
        CreateStep(old(accounts), ProfileAccount(fullName, email, username, password, userRole, status))
    {
      var i := 0;
      while i < |accounts|
        invariant 0 <= i <= |accounts|
        invariant forall j :: 0 <= j < i ==> accounts[j].username != username && accounts[j].email != email
      {
        if accounts[i].username == username || accounts[i].email == email {
          return AlreadyExists(username, email);
        }
        i := i + 1;
      }
      accounts := accounts + [ProfileAccount(fullName, email, username, password, userRole, status)];
      msg := Created(fullName, status);
    }
  }

  /** `CreateProfilePage.submitCreateProfile`, through the controller. */
  method SubmitCreateProfile(store: UserAccount, fullName: string, email: string, username: string,
                             password: string, userRole: string, status: string) returns (msg: string)
    modifies store
    ensures Step(msg, store.accounts) ==
      SubmitStep(old(store.accounts), ProfileAccount(fullName, email, username, password, userRole, status))
  {
    if fullName == "" || email == "" || username == "" || password == "" || userRole == "" || status == "" {
      return InvalidInput;
    }
    msg := store.CreateProfile(fullName, email, username, password, userRole, status);
  }

  /** Creating keeps usernames and e-mails unique. */
  lemma CreateKeepsUnique(accounts: seq<ProfileAccount>, a: ProfileAccount)
    ensures UniqueLogins(accounts) ==> UniqueLogins(CreateStep(accounts, a).accounts)
  {
    if UniqueLogins(accounts) && !Clashes(accounts, a.username, a.email) {
      var after := accounts + [a];
      forall i, j | 0 <= i < j < |after|
        ensures after[i].username != after[j].username && after[i].email != after[j].email
      {
        assert after[i] == accounts[i];
        if j < |accounts| {
          assert after[j] == accounts[j];
        }
      }
    }
  }

  /**
   * A clash is refused and changes nothing; otherwise the account is
   * appended and the message names the full name and the status.
   */
  lemma CreateOutcome(accounts: seq<ProfileAccount>, a: ProfileAccount)
    ensures Clashes(accounts, a.username, a.email) ==>
      CreateStep(accounts, a) == Step(AlreadyExists(a.username, a.email), accounts)
    ensures !Clashes(accounts, a.username, a.email) ==>
      CreateStep(accounts, a).accounts == accounts + [a] &&
      Contains(CreateStep(accounts, a).message, a.fullName) &&
      Contains(CreateStep(accounts, a).message, a.status)
  {
    var tail := "' created successfully with status " + a.status + ".";
    ContainsMiddle("Account '", a.fullName, tail);
    assert Created(a.fullName, a.status) == "Account '" + a.fullName + tail;
    ContainsMiddle("Account '" + a.fullName + "' created successfully with status ", a.status, ".");
  }

  /** After an account is created, another with its username or its e-mail is refused. */
  lemma SecondCreateRefused(accounts: seq<ProfileAccount>, a: ProfileAccount, b: ProfileAccount)
    requires !Clashes(accounts, a.username, a.email)
    requires b.username == a.username || b.email == a.email
    ensures CreateStep(CreateStep(accounts, a).accounts, b).accounts == accounts + [a]
    ensures CreateStep(CreateStep(accounts, a).accounts, b).message == AlreadyExists(b.username, b.email)
  {
    var after := accounts + [a];
    assert after[|accounts|] == a;
  }

  /** Any empty field is refused before the table is looked at. */
  lemma EmptyFieldRefused(accounts: seq<ProfileAccount>, a: ProfileAccount)
    ensures a.fullName == "" || a.email == "" || a.username == "" ||
            a.password == "" || a.userRole == "" || a.status == "" ==>
      SubmitStep(accounts, a) == Step(InvalidInput, accounts)
    ensures AllFilled(a) ==> SubmitStep(accounts, a) == CreateStep(accounts, a)
  {
  }
}
