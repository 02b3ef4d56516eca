/**
 * The user admin changes an account's password (UserStory3): the controller
 * refuses an empty username or password, and the entity sets the password
 * of the first account with that username.
 */
module AdminUpdateAccount {
  import opened PyValue
  import opened Seqs
  import opened AdminAccount

  const MissingFields := "Error: Invalid or missing fields."
  const UpdateDone := "Update successful!"
  const UserNotFound := "User not found."

  function NamedUser(username: string): Account -> bool {
    (acc: Account) => acc.userName == username
  }

  /** The entity's reply and its table afterwards. */
  function UpdateStep(accounts: seq<Account>, username: string, password: string): Reply<Account> {
    match FirstIndex(accounts, NamedUser(username))
    case None => Reply(UserNotFound, accounts)
    case Some(k) => Reply(UpdateDone, accounts[k := accounts[k].(password := password)])
  }

  /** The controller's reply: the field check comes first. */
  function SubmitStep(accounts: seq<Account>, username: string, password: string): Reply<Account> {
    if username == "" || password == "" then Reply(MissingFields, accounts)
    else UpdateStep(accounts, username, password)
  }

  class UserAccount {
    var accounts: seq<Account>

    constructor()
      ensures accounts == SeedAccounts()
    {
      accounts := SeedAccounts();
    }

    /** `UserAccount.submitUpdate` */
    method SubmitUpdate(username: string, password: string) returns (msg: string)
      modifies this
      ensures Reply(msg, accounts) == UpdateStep(old(accounts), username, password)
    {
      var i := 0;
      while i < |accounts|
        invariant 0 <= i <= |accounts|
        invariant accounts == old(accounts)
        invariant forall j :: 0 <= j < i ==> accounts[j].userName != username
      {
        if accounts[i].userName == username {
          assert NamedUser(username)(accounts[i]);
          assert forall j :: 0 <= j < i ==> !NamedUser(username)(accounts[j]);
          accounts := accounts[i := accounts[i].(password := password)];
          return UpdateDone;
        }
        i := i + 1;
      }
      assert forall j :: 0 <= j < |accounts| ==> !NamedUser(username)(accounts[j]);
      msg := UserNotFound;
    }
  }

  /** `UpdateAccountController.submitUpdate`, reached through `UpdateAccountPage.updateAccount`. */
  method UpdateAccount(store: UserAccount, username: string, password: string) returns (msg: string)
    modifies store
    ensures Reply(msg, store.accounts) == SubmitStep(old(store.accounts), username, password)
  {
    if username == "" || password == "" {
      return MissingFields;
    }
    msg := store.SubmitUpdate(username, password);
  }

  /**
   * Only the password of the first account with the username changes; an
   * unknown username changes nothing.
   */
  lemma OnlyPasswordChanges(accounts: seq<Account>, username: string, password: string)
    ensures var r := UpdateStep(accounts, username, password);
      |r.items| == |accounts| &&
      (forall j :: 0 <= j < |accounts| ==>
        r.items[j].userName == accounts[j].userName && r.items[j].email == accounts[j].email &&
        r.items[j].phone == accounts[j].phone)
    ensures UpdateStep(accounts, username, password).message == UpdateDone <==>
      exists j :: 0 <= j < |accounts| && accounts[j].userName == username
    ensures UpdateStep(accounts, username, password).message == UserNotFound ==>
      UpdateStep(accounts, username, password).items == accounts
    ensures UpdateStep(accounts, username, password).message == UpdateDone ==>
      var k := FirstIndex(accounts, NamedUser(username)).value;
      var after := UpdateStep(accounts, username, password).items;
      accounts[k].userName == username && after[k].password == password &&
      forall j :: 0 <= j < |accounts| && j != k ==> after[j] == accounts[j]
  {
    var k := FirstIndex(accounts, NamedUser(username));
    if k.Some? {
      assert NamedUser(username)(accounts[k.value]);
    } else {
      assert forall j :: 0 <= j < |accounts| ==> !NamedUser(username)(accounts[j]);
    }
  }

  /** An empty field is refused before the table is looked at. */
  lemma EmptyFieldsRefused(accounts: seq<Account>, username: string, password: string)
    requires username == "" || password == ""
    ensures SubmitStep(accounts, username, password) == Reply(MissingFields, accounts)
  {
  }
}
