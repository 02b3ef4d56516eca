/**
 * The user admin suspends an account (UserStory4): the entity finds the
 * first account with the username, then requires the admin password, then
 * refuses an account that is already suspended.
 */
module AdminSuspendAccount {
  import opened PyValue
  import opened Seqs

  const AdminPassword := "admin123"
  const AlreadySuspended := "Account already suspended."
  const Suspended := "Suspension successful."
  const BadAdminPassword := "Error: Invalid admin password."
  const AccountNotFound := "Error: User account not found."

  /** `{"username", "password", "status"}` */
  datatype Account = Account(username: string, password: string, status: string)

  function Seed(): seq<Account> {
    [Account("john_doe", "pass123", "Active"), Account("mary_lim", "qwerty", "Active"),
     Account("admin_user", "admin123", "Active")]
  }

  function NamedUser(username: string): Account -> bool {
    (acc: Account) => acc.username == username
  }

  /** The entity's reply and its table afterwards. */
  function SuspendStep(accounts: seq<Account>, username: string, password: string): Reply<Account> {
    match FirstIndex(accounts, NamedUser(username))
    case None => Reply(AccountNotFound, accounts)
    case Some(k) =>
      if password != AdminPassword then Reply(BadAdminPassword, accounts)
      else if accounts[k].status == "Suspended" then Reply(AlreadySuspended, accounts)
      else Reply(Suspended, accounts[k := accounts[k].(status := "Suspended")])
  }

  class UserAccount {
    var accounts: seq<Account>

    constructor()
      ensures accounts == Seed()
    {
      accounts := Seed();
    }

    /** `UserAccount.suspendAccount`, which the controller calls unchanged. */
    method SuspendAccount(username: string, password: string) returns (msg: string)
      modifies this
      ensures Reply(msg, accounts) == SuspendStep(old(accounts), username, password)
    {
      var i := 0;
      while i < |accounts|
        invariant 0 <= i <= |accounts|
        invariant accounts == old(accounts)
        invariant forall j :: 0 <= j < i ==> accounts[j].username != username
      {
        if accounts[i].username == username {
          assert NamedUser(username)(accounts[i]);
          assert forall j :: 0 <= j < i ==> !NamedUser(username)(accounts[j]);
          if password == AdminPassword {
            if accounts[i].status == "Suspended" {
              return AlreadySuspended;
            }
            accounts := accounts[i := accounts[i].(status := "Suspended")];
            return Suspended;
          } else {
            return BadAdminPassword;
          }
        }
        i := i + 1;
      }
      assert forall j :: 0 <= j < |accounts| ==> !NamedUser(username)(accounts[j]);
      msg := AccountNotFound;
    }
  }

  /** Suspending twice: the second call reports the account already suspended and changes nothing. */
  lemma SuspendIdempotent(accounts: seq<Account>, username: string, password: string)
    requires SuspendStep(accounts, username, password).message == Suspended
    ensures var once := SuspendStep(accounts, username, password).items;
      SuspendStep(once, username, password) == Reply(AlreadySuspended, once)
  {
    var k := FirstIndex(accounts, NamedUser(username)).value;
    var once := SuspendStep(accounts, username, password).items;
    assert forall j :: 0 <= j < k ==> once[j] == accounts[j];
    assert NamedUser(username)(once[k]);
    assert FirstIndex(once, NamedUser(username)) == Some(k);
  }

  /** A wrong admin password is reported even for an account that is already suspended. */
  lemma PasswordCheckedFirst(accounts: seq<Account>, username: string, password: string)
    requires password != AdminPassword
    requires exists j :: 0 <= j < |accounts| && accounts[j].username == username
    ensures SuspendStep(accounts, username, password) == Reply(BadAdminPassword, accounts)
  {
    var j :| 0 <= j < |accounts| && accounts[j].username == username;
    assert NamedUser(username)(accounts[j]);
  }

  /** A suspension changes only the status of the first account with the username. */
  lemma OnlyStatusChanges(accounts: seq<Account>, username: string, password: string)
    ensures |SuspendStep(accounts, username, password).items| == |accounts|
    ensures SuspendStep(accounts, username, password).message != Suspended ==>
      SuspendStep(accounts, username, password).items == accounts
    ensures SuspendStep(accounts, username, password).message == Suspended ==>
      var k := FirstIndex(accounts, NamedUser(username)).value;
      var after := SuspendStep(accounts, username, password).items;
      after[k] == accounts[k].(status := "Suspended") && accounts[k].status != "Suspended" &&
      forall j :: 0 <= j < |accounts| && j != k ==> after[j] == accounts[j]
    ensures (forall j :: 0 <= j < |accounts| ==> accounts[j].username != username) ==>
      SuspendStep(accounts, username, password) == Reply(AccountNotFound, accounts)
  {
    if forall j :: 0 <= j < |accounts| ==> accounts[j].username != username {
      assert forall j :: 0 <= j < |accounts| ==> !NamedUser(username)(accounts[j]);
    }
  }
}
