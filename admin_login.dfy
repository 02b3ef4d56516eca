/**
 * The user admin logs in (UserStory11): the entity accepts a username and
 * password that both equal one account's, and the controller turns any
 * entity reply containing "successful" (ignoring case) into
 * "Login successful!" and every other reply into "Invalid credentials".
 */
module AdminLogin {
  import opened PyValue
  import opened AdminAccount

  const LoginOk := "Login successful!"
  const EntityRefusal := "Error: Invalid username or password."
  const InvalidCredentials := "Invalid credentials"

  function Seed(): seq<Credentials> {
    [Credentials("admin1", "pass123"), Credentials("admin2", "mypassword"), Credentials("admin3", "secure123")]
  }

  /** `UserAccount.login`: an account with both fields equal. */
  function EntityLogin(accounts: seq<Credentials>, username: string, password: string): string {
    if Credentials(username, password) in accounts then LoginOk else EntityRefusal
  }

  /** The controller's reading of the entity's reply. */
  function ControllerVerdict(result: string): string {
    if Contains(Lower(result), "successful") then LoginOk else InvalidCredentials
  }

  /**
   * `LoginController.processLogin`, which `LoginPage.enterCredentials`
   * returns unchanged.
   */
  function ProcessLogin(accounts: seq<Credentials>, username: string, password: string): string {
    ControllerVerdict(EntityLogin(accounts, username, password))
  }

  /** The entity's success reply reads as a success. */
  lemma SuccessReadAsSuccess()
    ensures ControllerVerdict(LoginOk) == LoginOk
  {
    var l := Lower(LoginOk);
    assert forall i :: 6 <= i < 16 ==> IsLowerCase(LoginOk[i]) && l[i] == LoginOk[i];
    assert l[6..16] == LoginOk[6..16] == "successful";
    assert OccursAt(l, "successful", 6);
  }

  /** The entity's refusal, which holds no letter f, reads as a refusal. */
  lemma RefusalReadAsRefusal()
    ensures ControllerVerdict(EntityRefusal) == InvalidCredentials
  {
    var r := EntityRefusal;
    assert forall i :: 0 <= i < |r| ==> r[i] != 'f' && r[i] != 'F';
    assert forall i :: 0 <= i < |r| ==> Lower(r)[i] != 'f';
    NotContainsChar(Lower(r), "successful", 'f');
  }

  /** The login succeeds exactly when some account has the username and the password. */
  lemma LoginExact(accounts: seq<Credentials>, username: string, password: string)
    ensures ProcessLogin(accounts, username, password) == LoginOk <==>
      exists i :: 0 <= i < |accounts| && accounts[i].username == username && accounts[i].password == password
    ensures ProcessLogin(accounts, username, password) != LoginOk ==>
      ProcessLogin(accounts, username, password) == InvalidCredentials
  {
    SuccessReadAsSuccess();
    RefusalReadAsRefusal();
    if exists i :: 0 <= i < |accounts| && accounts[i].username == username && accounts[i].password == password {
      var i :| 0 <= i < |accounts| && accounts[i].username == username && accounts[i].password == password;
      assert accounts[i] == Credentials(username, password);
    }
  }

  /** The seeded administrators log in with their own passwords only. */
  lemma SeedLogins()
    ensures ProcessLogin(Seed(), "admin2", "mypassword") == LoginOk
    ensures ProcessLogin(Seed(), "admin2", "pass123") == InvalidCredentials
  {
    LoginExact(Seed(), "admin2", "mypassword");
    LoginExact(Seed(), "admin2", "pass123");
    assert Seed()[1] == Credentials("admin2", "mypassword");
  }
}
