/**
 * The user admin creates an account (UserStory1): the controller refuses an
 * empty username or password, and the entity appends the credentials with
 * no duplicate check.
 */
module AdminCreateAccount {
  import opened Seqs
  import opened AdminAccount

  const MissingFields := "Invalid or missing fields"
  const AccountCreated := "Account created successfully"


  /** The controller's reply and the entity's table afterwards. */
  function CreateAccountStep(accounts: seq<Credentials>, username: string, password: string): Reply<Credentials> {
    if username == "" || password == "" then Reply(MissingFields, accounts)
    else Reply(AccountCreated, accounts + [Credentials(username, password)])
  }

  class UserAccount {
    var accounts: seq<Credentials>

    constructor()
      ensures accounts == []
    {
      accounts := [];
    }

    /** `UserAccount.createAccount`: always appends, always succeeds. */
    method CreateAccount(username: string, password: string) returns (msg: string)
      modifies this
      ensures accounts == old(accounts) + [Credentials(username, password)]
      ensures msg == AccountCreated
    {
      accounts := accounts + [Credentials(username, password)];
      msg := AccountCreated;
    }
  }

  /** `AccountController.createAccount`, reached through `CreateAccountPage.submitCreateAcc`. */
  method SubmitCreateAcc(store: UserAccount, username: string, password: string) returns (msg: string)
    modifies store
    ensures Reply(msg, store.accounts) == CreateAccountStep(old(store.accounts), username, password)
  {
    if username == "" || password == "" {
      return MissingFields;
    }
    msg := store.CreateAccount(username, password);
  }

  /** Empty fields change nothing; otherwise exactly one account is appended at the end. */
  lemma CreateAccountOutcome(accounts: seq<Credentials>, username: string, password: string)
    ensures CreateAccountStep(accounts, username, password).message == AccountCreated <==> username != "" && password != ""
    ensures username == "" || password == "" ==> CreateAccountStep(accounts, username, password).items == accounts
    ensures username != "" && password != "" ==>
      var after := CreateAccountStep(accounts, username, password).items;
      |after| == |accounts| + 1 && after[..|accounts|] == accounts && after[|accounts|] == Credentials(username, password)
  {
  }

  /** Nothing stops a username from being created twice: both entries are kept. */
  lemma DuplicatesKept(accounts: seq<Credentials>, username: string, password: string)
    requires username != "" && password != ""
    ensures var after := CreateAccountStep(CreateAccountStep(accounts, username, password).items, username, password);
      after.message == AccountCreated &&
      multiset(after.items)[Credentials(username, password)] == multiset(accounts)[Credentials(username, password)] + 2
  {
    var c := Credentials(username, password);
    var once := accounts + [c];
    var twice := once + [c];
    assert multiset(once) == multiset(accounts) + multiset{c};
    assert multiset(twice) == multiset(once) + multiset{c};
  }
}
