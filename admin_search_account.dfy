/**
 * The user admin searches the user accounts (UserStory5): the page refuses
 * an empty user name or keyword; only the user name "admin" in any case may
 * search, and an account matches when the lower-cased keyword occurs in its
 * lower-cased user name or e-mail, or in its phone number as written.
 */
module AdminSearchAccount {
  import opened PyValue
  import opened Seqs
  import opened AdminAccount

  const InvalidInput := "Error: Invalid search input. Please enter both username and data."
  const Unauthorized := "Error: Unauthorized user. Only admins can perform search."
  const SearchDone := "Search completed successfully."

  function NoResults(data: string): string {
    "No results found for '" + data + "'."
  }

  function Seed(): seq<Account> {
    [Account("john_doe", "abc123", "john@example.com", "91234567"),
     Account("mary_lim", "lim123", "mary@domain.com", "98765432"),
     Account("alex_tan", "tan888", "alex@sample.com", "90011223")]
  }

  /** The entity's match test for one account. */
  predicate Matches(acc: Account, data: string) {
    Contains(Lower(acc.userName), Lower(data)) || Contains(Lower(acc.email), Lower(data)) ||
    Contains(acc.phone, Lower(data))
  }

  function MatchOn(data: string): Account -> bool {
    (acc: Account) => Matches(acc, data)
  }

  /** The entity's reply: its message and the accounts it lists. */
  function SearchStep(accounts: seq<Account>, username: string, data: string): Reply<Account> {
    if Lower(username) != "admin" then Reply(Unauthorized, [])
    else
      var results := Filter(accounts, MatchOn(data));
      if results == [] then Reply(NoResults(data), []) else Reply(SearchDone, results)
  }

  /** The page's reply: empty input is refused before the entity is asked. */
  function SubmitStep(accounts: seq<Account>, username: string, data: string): Reply<Account> {
    if username == "" || data == "" then Reply(InvalidInput, [])
    else SearchStep(accounts, username, data)
  }

  class UserAccount {
    var accounts: seq<Account>

    constructor()
      ensures accounts == Seed()
    {
      accounts := Seed();
    }

    /**
     * `UserAccount.searchAccount`: the matching accounts, which the source
     * prints, are returned as `results`.
     */
    method SearchAccount(username: string, data: string) returns (msg: string, results: seq<Account>)
      ensures Reply(msg, results) == SearchStep(accounts, username, data)
    {
      if Lower(username) != "admin" {
        return Unauthorized, [];
      }
      results := [];
      var i := 0;
      while i < |accounts|
        invariant 0 <= i <= |accounts|
        invariant results == Filter(accounts[..i], MatchOn(data))
      {
        var acc := accounts[i];
        var hit := Contains(Lower(acc.userName), Lower(data)) || Contains(Lower(acc.email), Lower(data)) ||
          Contains(acc.phone, Lower(data));
        FilterSnoc(accounts[..i], acc, MatchOn(data));
        assert accounts[..i + 1] == accounts[..i] + [acc];
        if hit {
          results := results + [acc];
        }
        i := i + 1;
      }
      assert accounts[..i] == accounts;
      if results == [] {
        msg := NoResults(data);
      } else {
        msg := SearchDone;
      }
    }
  }

  /** `SearchAccountPage.submitSearch`, through the controller. */
  method SubmitSearch(store: UserAccount, username: string, data: string) returns (msg: string, results: seq<Account>)
    ensures Reply(msg, results) == SubmitStep(store.accounts, username, data)
  {
    if username == "" || data == "" {
      return InvalidInput, [];
    }
    msg, results := store.SearchAccount(username, data);
  }

  /** An authorised search lists exactly the matching accounts, in table order. */
  lemma ResultsExact(accounts: seq<Account>, username: string, data: string)
    requires Lower(username) == "admin"
    ensures SearchStep(accounts, username, data).items == Filter(accounts, MatchOn(data))
    ensures forall acc :: acc in SearchStep(accounts, username, data).items <==> acc in accounts && Matches(acc, data)
    ensures IsSubseq(SearchStep(accounts, username, data).items, accounts)
  {
    FilterProperties(accounts, MatchOn(data));
    forall acc ensures MatchOn(data)(acc) == Matches(acc, data) {
    }
  }

  /** An authorised search reports success exactly when some account matches, and "no results" otherwise. */
  lemma ResultsMessage(accounts: seq<Account>, username: string, data: string)
    requires Lower(username) == "admin"
    ensures SearchStep(accounts, username, data).message == SearchDone <==>
      exists j :: 0 <= j < |accounts| && Matches(accounts[j], data)
    ensures SearchStep(accounts, username, data).message != SearchDone ==>
      SearchStep(accounts, username, data).message == NoResults(data)
  {
    var f := Filter(accounts, MatchOn(data));
    assert NoResults(data)[0] == 'N';
    FilterProperties(accounts, MatchOn(data));
    if exists j :: 0 <= j < |accounts| && Matches(accounts[j], data) {
      var j :| 0 <= j < |accounts| && Matches(accounts[j], data);
      assert MatchOn(data)(accounts[j]);
      assert accounts[j] in f;
    } else {
      FilterNone(accounts, MatchOn(data));
    }
  }

  /** Any capitalisation of "admin" may search; any other name is refused with no results. */
  lemma OnlyAdminSearches(accounts: seq<Account>, data: string)
    ensures SearchStep(accounts, "ADMIN", data) == SearchStep(accounts, "admin", data)
    ensures SearchStep(accounts, "Admin", data) == SearchStep(accounts, "admin", data)
    ensures SearchStep(accounts, "admin01", data) == Reply(Unauthorized, [])
  {
    assert Lower("ADMIN") == "admin";
    assert Lower("Admin") == "admin";
    assert |Lower("admin01")| == 7;
  }

  /** The keyword is matched ignoring its case: the same accounts are listed. */
  lemma KeywordIgnoresCase(accounts: seq<Account>, username: string, data: string)
    ensures SearchStep(accounts, username, Upper(data)).items == SearchStep(accounts, username, data).items
  {
    LowerOfUpper(data);
    FilterSame(accounts, MatchOn(Upper(data)), MatchOn(data));
  }
}
