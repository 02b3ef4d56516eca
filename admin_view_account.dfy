/**
 * The user admin views an account (UserStory2): the entity returns the first
 * account whose username and password both match exactly, and the
 * controller formats it or answers that the credentials are invalid.
 */
module AdminViewAccount {
  import opened PyValue
  import opened Seqs
  import opened AdminAccount

  const InvalidCredentials := "Invalid username or password."

  predicate CredentialsMatch(acc: Account, username: string, password: string) {
    acc.userName == username && acc.password == password
  }

  function Matcher(username: string, password: string): Account -> bool {
    acc => CredentialsMatch(acc, username, password)
  }

  /** `UserAccount.getUserDetails`: the first exact match, or None. */
  function FindAccount(accounts: seq<Account>, username: string, password: string): Option<Account> {
    match FirstIndex(accounts, Matcher(username, password))
    case None => None
    case Some(k) => Some(accounts[k])
  }

  function DetailsText(acc: Account): string {
    "Username: " + acc.userName + ", Password: " + acc.password + ", Email: " + acc.email + ", Phone: " + acc.phone
  }

  /** `ViewAccountController.getUserDetails` (the page forwards to it). */
  function GetUserDetails(accounts: seq<Account>, username: string, password: string): string {
    match FindAccount(accounts, username, password)
    case Some(acc) => DetailsText(acc)
    case None => InvalidCredentials
  }

  /** The lookup returns the first account matching both fields, and None exactly when none does. */
  lemma FindAccountFirst(accounts: seq<Account>, username: string, password: string)
    ensures FindAccount(accounts, username, password).None? <==>
      forall j :: 0 <= j < |accounts| ==> !CredentialsMatch(accounts[j], username, password)
    ensures FindAccount(accounts, username, password).Some? ==>
      exists k :: 0 <= k < |accounts| && accounts[k] == FindAccount(accounts, username, password).value &&
        CredentialsMatch(accounts[k], username, password) &&
        forall j :: 0 <= j < k ==> !CredentialsMatch(accounts[j], username, password)
  {
    var k := FirstIndex(accounts, Matcher(username, password));
    if k.Some? {
      assert Matcher(username, password)(accounts[k.value]);
      assert forall j :: 0 <= j < k.value ==> !Matcher(username, password)(accounts[j]);
    } else {
      assert forall j :: 0 <= j < |accounts| ==> !Matcher(username, password)(accounts[j]);
    }
  }

  /**
   * The reply is the invalid-credentials message exactly when nothing
   * matches; a match is shown starting with the given username and password.
   */
  lemma DetailsOnMatchOnly(accounts: seq<Account>, username: string, password: string)
    ensures GetUserDetails(accounts, username, password) == InvalidCredentials <==>
      forall j :: 0 <= j < |accounts| ==> !CredentialsMatch(accounts[j], username, password)
    ensures GetUserDetails(accounts, username, password) != InvalidCredentials ==>
      StartsWith(GetUserDetails(accounts, username, password), "Username: " + username + ", Password: " + password + ", Email: ")
  {
    FindAccountFirst(accounts, username, password);
    var found := FindAccount(accounts, username, password);
    if found.Some? {
      var text := DetailsText(found.value);
      assert text[0] == 'U';
      assert InvalidCredentials[0] == 'I';
      var p := "Username: " + username + ", Password: " + password + ", Email: ";
      assert text == p + found.value.email + ", Phone: " + found.value.phone;
      assert text[..|p|] == p;
    }
  }

  /** The seeded administrator's own credentials find it; a wrong password does not. */
  lemma SeedLookup()
    ensures FindAccount(SeedAccounts(), "admin01", "admin123") == Some(SeedAccounts()[0])
    ensures FindAccount(SeedAccounts(), "admin01", "csr123") == None
  {
    var s := SeedAccounts();
    assert Matcher("admin01", "admin123")(s[0]);
    assert !Matcher("admin01", "csr123")(s[0]);
    assert !Matcher("admin01", "csr123")(s[1]);
    assert !Matcher("admin01", "csr123")(s[2]);
  }
}
