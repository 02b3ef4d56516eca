/**
 * The records the user-admin stories keep in their in-memory tables: user
 * accounts (UserStory1, 2, 3, 5, 11 and 41) and user profiles (UserStory7, 9 and 10).
 */
module AdminAccount {
  /** `{"userName", "password", "email", "phone"}` (UserStory5 spells the first key "username") */
  datatype Account = Account(userName: string, password: string, email: string, phone: string)

  /** `{"userProfileID", "userProfileName", "userRole", "status"}` */
  datatype Profile = Profile(profileId: int, profileName: string, userRole: string, status: string)

  /** `{"username", "password"}`: the accounts of UserStory1 and the login tables of UserStory11 and 41. */
  datatype Credentials = Credentials(username: string, password: string)

  /** The account table UserStory2 and UserStory3 are seeded with. */
  function SeedAccounts(): seq<Account> {
    [Account("admin01", "admin123", "admin01@sys.com", "91234567"),
     Account("csr_rep1", "csr123", "csr1@sys.com", "92345678"),
     Account("pin_user1", "pin321", "pin1@sys.com", "93456789")]
  }
}
