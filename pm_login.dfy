/**
 * The platform manager logs in (UserStory41).  The entity and the
 * controller's logic are those of the user admin's login, but the
 * controller names its method `login`, while the page calls
 * `processLogin` on it: as written, every call of the page raises
 * AttributeError.  `EnterCredentialsAsWritten` models that page and
 * `EnterCredentials` the page calling `login`, which the rest of the model
 * uses.
 */
module PmLogin {
  import opened PyValue
  import opened AdminAccount
  import AdminLogin

  function Seed(): seq<Credentials> {
    [Credentials("pm_admin", "admin123"), Credentials("manager1", "secure001"), Credentials("supervisor", "pass789")]
  }

  /** `LoginController.login` */
  function ControllerLogin(accounts: seq<Credentials>, username: string, password: string): string {
    AdminLogin.ControllerVerdict(AdminLogin.EntityLogin(accounts, username, password))
  }

  /** `LoginPage.enterCredentials` as written: the controller has no `processLogin`, so the call raises. */
  function EnterCredentialsAsWritten(accounts: seq<Credentials>, username: string, password: string): Outcome<string> {
    Raised
  }

  /** `LoginPage.enterCredentials` calling the controller's `login`. */
  function EnterCredentials(accounts: seq<Credentials>, username: string, password: string): Outcome<string> {
    Ok(ControllerLogin(accounts, username, password))
  }

  /** As written, even the seeded manager's own credentials end in an exception at the page. */
  lemma PageAsWrittenRejectsValidLogin()
    ensures ControllerLogin(Seed(), "pm_admin", "admin123") == AdminLogin.LoginOk
    ensures EnterCredentialsAsWritten(Seed(), "pm_admin", "admin123") == Raised
  {
    AdminLogin.SuccessReadAsSuccess();
    assert Seed()[0] == Credentials("pm_admin", "admin123");
  }

  /**
   * With the call corrected, the page answers "Login successful!" exactly
   * when some account has both the username and the password, and
   * "Invalid credentials" otherwise.
   */
  lemma PageLoginExact(accounts: seq<Credentials>, username: string, password: string)
    ensures EnterCredentials(accounts, username, password) == Ok(AdminLogin.LoginOk) <==>
      exists i :: 0 <= i < |accounts| && accounts[i].username == username && accounts[i].password == password
    ensures EnterCredentials(accounts, username, password) != Ok(AdminLogin.LoginOk) ==>
      EnterCredentials(accounts, username, password) == Ok(AdminLogin.InvalidCredentials)
  {
    AdminLogin.LoginExact(accounts, username, password);
  }
}
