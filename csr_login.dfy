/**
 * A CSR representative logs in (UserStory18): the account is looked up
 * under the requested role (default 'csr') and the password is checked by
 * the configured checker, retried with swapped arguments when it raises
 * TypeError, or compared with `==`.  A successful login remembers the
 * username and the stored password on the account object.
 */
module CsrLogin {
  import opened PyValue

  const UsernameRequired := "Error: Username is required."
  const PasswordRequired := "Error: Password is required."
  const NoLoader := "Error: load_users function not provided."
  const AccountNotFound := "Account not found."
  const InvalidCredentials := "Invalid credentials."

  function RoleNotFound(role: string): string {
    "Role '" + role + "' not found."
  }

  /** users.json: role name -> username -> account dict. */
  type Users = map<string, map<string, Record>>

  /**
   * A password checker: its verdict on (first, second), or None when the
   * call raises TypeError.
   */
  type Checker = (Value, Value) -> Option<bool>

  /** The dict `login` returns; `LoggedIn` carries the role and username it echoes back. */
  datatype LoginResult = Rejected(message: string) | LoggedIn(role: string, username: Value)

  /** `str(role).strip() if role else 'csr'` */
  function TargetRole(role: Value): string {
    if Truthy(role) then Strip(Str(role)) else "csr"
  }

  /**
   * A list cannot be a dict key: `role_accounts.get(username)` raises
   * TypeError for it.  Every other value can be looked up.
   */
  predicate Hashable(v: Value) {
    !v.VList?
  }

  /** `role_accounts.get(username)`; only a str username can name an account. */
  function AccountOf(accounts: map<string, Record>, username: Value): Record {
    if username.VStr? && username.s in accounts then accounts[username.s] else map[]
  }

  /**
   * `is_valid`: with a checker and a truthy stored password the checker
   * decides, called again with swapped arguments if it raises TypeError (a
   * second TypeError propagates); otherwise the passwords must be `==`.
   */
  function PasswordValid(checker: Option<Checker>, stored: Value, password: Value): Option<bool> {
    if checker.Some? && Truthy(stored) then
      match checker.value(stored, password)
      case Some(b) => Some(b)
      case None => checker.value(password, stored)
    else Some(PyEq(stored, password))
  }

  /** What `login` returns once the users have been loaded; None where it raises. */
  function LoginVerdict(users: Users, username: Value, password: Value, role: Value, checker: Option<Checker>)
    : Option<LoginResult>
  {
    var target := TargetRole(role);
    if target !in users then Some(Rejected(RoleNotFound(target)))
    else if !Hashable(username) then None
    else
      var account := AccountOf(users[target], username);
      if !RecordTruthy(account) then Some(Rejected(AccountNotFound))
      else
        match PasswordValid(checker, Get(account, "password"), password)
        case None => None
        case Some(false) => Some(Rejected(InvalidCredentials))
        case Some(true) => Some(LoggedIn(target, username))
  }

  /** `UserAccount`: the username and password of the last successful login. */
  class UserAccount {
    var username: Value
    var password: Value

    constructor()
      ensures username == VNone && password == VNone
    {
      username := VNone;
      password := VNone;
    }

    /** `UserAccount.login`; `loaded` is None when no loader was given. */
    method Login(user: Value, pass: Value, role: Value, loaded: Option<Users>, checker: Option<Checker>)
      returns (res: Outcome<LoginResult>)
      modifies this
      ensures loaded.None? ==> res == Err(NoLoader)
      ensures loaded.Some? ==>
        match LoginVerdict(loaded.value, user, pass, role, checker)
        case None => res == Raised
        case Some(v) => res == Ok(v)
      ensures res.Ok? && res.value.LoggedIn? ==> (
        loaded.Some? && username == user &&
        password == Get(AccountOf(loaded.value[TargetRole(role)], user), "password"))
      ensures !(res.Ok? && res.value.LoggedIn?) ==> username == old(username) && password == old(password)
    {
      if loaded.None? {
        return Err(NoLoader);
      }
      var users := loaded.value;
      var target := TargetRole(role);
      if target !in users {
        return Ok(Rejected(RoleNotFound(target)));
      }
      if !Hashable(user) {
        return Raised;
      }
      var account := AccountOf(users[target], user);
      if !RecordTruthy(account) {
        return Ok(Rejected(AccountNotFound));
      }
      var stored := Get(account, "password");
      var valid := PasswordValid(checker, stored, pass);
      if valid.None? {
        return Raised;
      }
      if !valid.value {
        return Ok(Rejected(InvalidCredentials));
      }
      username := user;
      password := stored;
      res := Ok(LoggedIn(target, user));
    }
  }

  /** `LoginController.processLogin`: username and password are checked before anything is loaded. */
  method ProcessLogin(account: UserAccount, user: Value, pass: Value, role: Value,
                      loaded: Option<Users>, checker: Option<Checker>)
    returns (res: Outcome<LoginResult>)
    modifies account
    ensures !Truthy(user) || Blank(Str(user)) ==> res == Err(UsernameRequired) && unchanged(account)
    ensures Truthy(user) && !Blank(Str(user)) && (pass == VNone || pass == VStr("")) ==>
      res == Err(PasswordRequired) && unchanged(account)
    ensures Truthy(user) && !Blank(Str(user)) && pass != VNone && pass != VStr("") ==>
      (loaded.None? ==> res == Err(NoLoader)) &&
      (loaded.Some? ==> res == match LoginVerdict(loaded.value, user, pass, role, checker)
                              case None => Raised
                              case Some(v) => Ok(v))
    ensures res.Ok? && res.value.LoggedIn? ==> (
      loaded.Some? && account.username == user &&
      account.password == Get(AccountOf(loaded.value[TargetRole(role)], user), "password"))
    ensures !(res.Ok? && res.value.LoggedIn?) ==>
      account.username == old(account.username) && account.password == old(account.password)
  {
    if !Truthy(user) || Blank(Str(user)) {
      return Err(UsernameRequired);
    }
    if pass == VNone || pass == VStr("") {
      return Err(PasswordRequired);
    }
    if loaded.None? {
      return Err(NoLoader);
    }
    res := account.Login(user, pass, role, loaded, checker);
  }

  /** A login succeeds only for an existing role, an existing account and an accepted password. */
  lemma LoginSucceedsOnlyWhenValid(users: Users, user: Value, pass: Value, role: Value, checker: Option<Checker>)
    ensures LoginVerdict(users, user, pass, role, checker).Some? &&
            LoginVerdict(users, user, pass, role, checker).value.LoggedIn? <==>
      TargetRole(role) in users && Hashable(user) && RecordTruthy(AccountOf(users[TargetRole(role)], user)) &&
      PasswordValid(checker, Get(AccountOf(users[TargetRole(role)], user), "password"), pass) == Some(true)
    ensures LoginVerdict(users, user, pass, role, checker) == Some(LoggedIn(TargetRole(role), user)) ||
            LoginVerdict(users, user, pass, role, checker).None? ||
            LoginVerdict(users, user, pass, role, checker).value.Rejected?
  {
  }

  /** Without a checker the stored password must equal the one given. */
  lemma PlainComparison(users: Users, user: Value, pass: Value, role: Value)
    requires TargetRole(role) in users && Hashable(user) && RecordTruthy(AccountOf(users[TargetRole(role)], user))
    ensures LoginVerdict(users, user, pass, role, None) ==
      Some(if PyEq(Get(AccountOf(users[TargetRole(role)], user), "password"), pass)
           then LoggedIn(TargetRole(role), user) else Rejected(InvalidCredentials))
  {
  }

  /**
   * Under an existing role a list username raises TypeError at the lookup,
   * whatever the password; under a missing role the role error comes first.
   */
  lemma ListUsernameRaises(users: Users, items: seq<Value>, pass: Value, role: Value, checker: Option<Checker>)
    ensures TargetRole(role) in users ==> LoginVerdict(users, VList(items), pass, role, checker).None?
    ensures TargetRole(role) !in users ==>
      LoginVerdict(users, VList(items), pass, role, checker) == Some(Rejected(RoleNotFound(TargetRole(role))))
  {
  }

  /** A checker that raises TypeError one way round is asked again the other way round. */
  lemma CheckerRetried(checker: Checker, stored: Value, pass: Value)
    requires Truthy(stored) && checker(stored, pass).None?
    ensures PasswordValid(Some(checker), stored, pass) == checker(pass, stored)
  {
  }

  /** A falsy role means 'csr'; an unknown role is reported by its stripped name. */
  lemma RoleDefaults(users: Users, user: Value, pass: Value, checker: Option<Checker>)
    ensures TargetRole(VNone) == "csr" && TargetRole(VStr("")) == "csr"
    ensures TargetRole(VStr(" csr ")) == "csr"
    ensures "csr" !in users ==> LoginVerdict(users, user, pass, VNone, checker) == Some(Rejected(RoleNotFound("csr")))
  {
    assert TrimStart(" csr ") == "csr ";
    assert TrimEnd("csr ") == "csr";
  }
}
