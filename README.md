# Volunteer request platform — a Dafny model of its request store

The platform lets PIN users (persons in need) post help requests, lets CSR
representatives (volunteers) search, shortlist, assign and complete them,
and gives user administrators and the platform manager (PM) account,
profile, category and report functions. The code comes in two forms:

- the per-user-story BCE modules (`UserStoryN_*.py`, each a page, a
  controller and an entity). They work on lists of JSON-like records
  loaded through a loader function and written back through a saver, or on
  small in-memory tables;
- two JSON web services, `Max_app.py` and `app.py`, whose route bodies
  load a JSON file, change it and save it.

This project models the request repository (create, view, update, delete),
the search and filter engines, the three kinds of shortlist bookkeeping
(per-record flags, the per-CSR ledger of `Max_app.py` and the flat id list
of `app.py`), the view and shortlist counters, the assignment and status
changes, categories and accounts, and the report bucketing.

Modelling conventions:

- `PyValue` gives the dynamic values the code branches on (`isinstance`):
  None, bool, int, str and lists. A record is `map<string, Value>`. An
  outcome is a value, an error string, or a raised Python exception. It
  also defines the Python built-ins used (`strip`, `lower`, `upper`,
  `title`, `int(str)`, `str(int)`, truthiness) over ASCII. `Seqs` holds
  the generic list facts: filters, maps, subsequences, first index and
  sorting.
- A file the code loads, changes and saves is passed in as a value. A
  route or an entity method then returns its reply together with what it
  saves, or `None` when it does not call the saver. A missing loader or
  saver is a flag.
- An in-memory entity table (the Admin and PM user stories) is a `class`
  with a `seq` field, and its methods have `modifies` clauses. Each such
  method is proved against a pure function of the old table.
- A `for` loop that updates variables step by step (the request lookups,
  the shortlist listing, the report grouping, the weekly sort) is a `while` loop in a
  Dafny method, with invariants. Each such method is proved against a
  function, and the properties are lemmas about that function.
- A list or dict comprehension, `any(...)` or `next(...)` is a function:
  `Seqs.Filter`, `Seqs.MapSeq`, `Seqs.FirstIndex`, and `Seqs.MapAll` and
  `Seqs.KeepWhere` where the element step may raise. The request listing
  of `app.py` (`AppCsrView`, app.py:923-934) is built from these alone and
  has no method.
- The session user, the clock (`now_iso`, `datetime.now`), date parsing
  (`strptime`, `fromisoformat`) and the password-hash check are parameters.

Each user-story file has one module, named after the story (for example
`ViewRequest` for UserStory14_PIN_ViewRequest.py). The logout stories and
UserStory34 have none (see "## Left out"). Each Flask app is split by
concern: `MaxAppIds`, `MaxAppViews`, `MaxAppShortlist` and `MaxAppAssign`
cover `Max_app.py`, and `AppIds`, `AppUsers`, `AppCategories`,
`AppRequests`, `AppCsrView` and `AppShortlist` cover `app.py`. Six modules
are shared and have no source file of their own:
- `PyValue` holds the Python value semantics.
- `Seqs` holds the list idioms.
- `Shortlist` holds the shortlist test that UserStory21, 23 and 24 repeat.
- `Report` holds what the three reports share.
- `AdminAccount` and `ServiceCategory` hold the in-memory records that
  several admin and manager stories keep.

## Model

| member | source | states |
|---|---|---|
| CreateRequest.EntityCreateRequest | UserStory13_PIN_CreateRequest.py:78-123 | without a loader or a saver it answers the matching error and saves nothing; otherwise it saves the loaded list followed by exactly one new record, and answers that record unless the save raised |
| CreateRequest.CreateRequest | UserStory13_PIN_CreateRequest.py:37-65 | a validation error is answered before anything is loaded or saved; after validation a missing loader or saver is refused with nothing saved; otherwise the loaded list plus the new record is saved, and the answer is the save error when saving fails or the new record |
| CreateRequest.ValidationOrder | UserStory13_PIN_CreateRequest.py:41-50 | the first of title, description, category, date and location that is missing or blank decides the message; validation passes exactly when all five are present |
| CreateRequest.NewRecordFields | UserStory13_PIN_CreateRequest.py:95-112 | a truthy caller id is used verbatim, otherwise the id is "REQ-" + (list length + 100); status is 'Pending'; owner and time default to '' |
| CreateRequest.GeneratedIdCanCollide | UserStory13_PIN_CreateRequest.py:95-102 | a list whose one record is "REQ-101" gets a second "REQ-101": generated ids are not unique |
| ViewRequest.FindRequest | UserStory14_PIN_ViewRequest.py:58-67 | the loop returns the first index whose trimmed id equals the query, directly or with every "REQ-" deleted from both |
| ViewRequest.EntityGetRequestDetail | UserStory14_PIN_ViewRequest.py:49-99 | without a loader it answers the loader error; otherwise the detail of the first matching record, or the not-found error when there is none |
| ViewRequest.GetRequestDetail | UserStory14_PIN_ViewRequest.py:23-33 | a missing or blank id is refused before any lookup and a missing loader is reported; otherwise the answer is the detail of the first matching record, or the not-found message when there is none |
| ViewRequest.DetailAssignee | UserStory14_PIN_ViewRequest.py:81 | 'assignee' and 'csr' are equal: the record's assignee, else its csr, else '' |
| ViewRequest.DetailDefaults | UserStory14_PIN_ViewRequest.py:73-97 | a missing status shows as 'Pending' and missing title, time and owner as ''; present fields are copied unchanged |
| ViewRequest.IdsMatchExamples | UserStory14_PIN_ViewRequest.py:65 | the id test is case-sensitive and deletes every "REQ-": "REQ-7" matches "7", "REQ-REQ-7" matches "7", "req-7" does not |
| ViewRequest.LookupFindsOwnId | UserStory14_PIN_ViewRequest.py:58-67 | looking a record up by its own id finds it or an earlier record |
| UpdateRequest.ApplyUpdateOutcome | UserStory15_PIN_UpdateRequest.py:78-127 | the entity's field writes succeed exactly when the resolved date and the time both pass their format checks, and then give the updated record |
| UpdateRequest.UpdatedTexts | UserStory15_PIN_UpdateRequest.py:80-99 | title, category and description take the value of `x or requestX` when it is not None and keep their old value otherwise |
| UpdateRequest.UpdatedSchedule | UserStory15_PIN_UpdateRequest.py:83-127 | date, location, time and status follow the same rule and `last_updated` holds the stamp |
| UpdateRequest.UpdatedKeeps | UserStory15_PIN_UpdateRequest.py:78-127 | every field the update does not name keeps its value, and no other field appears |
| UpdateRequest.BadDateRejected | UserStory15_PIN_UpdateRequest.py:101-108 | a date strptime rejects stops the update with the date-format error, whatever else was asked for |
| UpdateRequest.BadTimeRejected | UserStory15_PIN_UpdateRequest.py:114-120 | once the date has passed, a time strptime rejects stops the update with the time-format error |
| UpdateRequest.SubmitUpdate | UserStory15_PIN_UpdateRequest.py:26-65 | missing or empty data and a missing id are refused before loading; an unknown id is not found; a format error, a missing saver or a failing save write nothing or report the failure; otherwise exactly the found record is replaced by its update in the saved list |
| UpdateRequest.SavedListShape | UserStory15_PIN_UpdateRequest.py:88-133 | the list a successful update saves has the loaded length, holds the updated record at the found index and every other record as loaded, and the same id lookup finds the updated record there, since 'id' is never written |
| DeleteRequest.RemoveAt | UserStory16_PIN_DeleteRequest.py:76 | `pop(k)` drops one element: the length falls by one, earlier elements stay and later ones move down by one |
| DeleteRequest.RemoveAtMultiset | UserStory16_PIN_DeleteRequest.py:76 | popping removes exactly one copy of the element and keeps all others |
| DeleteRequest.EntityDeleteRequest | UserStory16_PIN_DeleteRequest.py:70-88 | a negative index gives "Unable to delete"; an index past the end raises; without a saver there is an error; otherwise the list without that record is saved and the success message names the id |
| DeleteRequest.DeleteRequest | UserStory16_PIN_DeleteRequest.py:28-62 | a falsy id or a missing loader is refused; an unknown id is not found with nothing saved; otherwise exactly the first matching record is removed and saved |
| DeleteRequest.BlankIdMatchesIdless | UserStory16_PIN_DeleteRequest.py:30-48 | the blank id "  " passes the falsy test and matches a record that has no id |
| DeleteRequest.DeleteThenCreateRepeatsId | UserStory16_PIN_DeleteRequest.py:76 | after any record but the last is deleted, the next generated id repeats that of the last generated record |
| SearchRequest.EntitySearchRequest | UserStory17_PIN_SearchRequest.py:52-122 | the loop collects exactly the records that satisfy every supplied criterion, in store order (the filter by the criteria) |
| SearchRequest.NoCriteriaKeepsAll | UserStory17_PIN_SearchRequest.py:61-66 | with no truthy criterion every record passes, so the early return of the whole list agrees with the filter |
| SearchRequest.SearchRequest | UserStory17_PIN_SearchRequest.py:23-40 | non-dict data and a missing loader are refused; otherwise the answer is exactly the stored records that meet every criterion, in store order and with duplicates kept |
| SearchRequest.FewerCriteriaKeepMatches | UserStory17_PIN_SearchRequest.py:69-117 | criteria are ANDed: dropping any one never loses a match |
| SearchRequest.CaseInsensitive | UserStory17_PIN_SearchRequest.py:81-117 | title, category, status and keyword queries ignore letter case |
| ViewPrevious.DetailInCharge | UserStory30_PIN_ViewPreviousRequest.py:70 | `csrRepInCharge` is the assignee, else the csr, else `CSRRepInCharge`, else '' |
| ViewPrevious.EntityGetPrevious | UserStory30_PIN_ViewPreviousRequest.py:49-84 | without a loader it answers the loader error; the first id match decides: a status differing, ignoring case, from a truthy requested status gives the status error, otherwise its detail; no match gives not found |
| ViewPrevious.GetPrevious | UserStory30_PIN_ViewPreviousRequest.py:22-33 | a blank id and a missing loader are refused; otherwise no match gives not found, a first match whose status differs, ignoring case, from a truthy requested status gives the status error, and any other first match gives its detail; with a falsy requested status the status gate is skipped |
| ViewPrevious.PrefixOnlyQueryMatchesIdless | UserStory30_PIN_ViewPreviousRequest.py:55-62 | the query "REQ-" matches a record without an id, which is shown with an empty id |
| SearchPrevious.MatchesFilters | UserStory29_PIN_SearchPreviousRequest.py:60-69 | the loop over the filter map answers whether every entry passes: a str entry is a case-insensitive substring test on the stored value (None read as ''), any other entry an equality test |
| SearchPrevious.EntitySearchPrevious | UserStory29_PIN_SearchPreviousRequest.py:71-113 | the loop keeps, in store order, exactly the records passing the status gate, the filter map, the keyword (title, description or location), the category and the date tests |
| SearchPrevious.SearchPrevious | UserStory29_PIN_SearchPreviousRequest.py:26-48 | None dicts become {}, non-dicts are refused, a falsy status becomes 'Completed', a missing loader is refused; otherwise the answer is the filter by that matcher |
| SearchPrevious.DefaultFindsCompleted | UserStory29_PIN_SearchPreviousRequest.py:35-36 | with the default status every record found is stored and completed, in any letter case (exact, not a substring) |
| SearchPrevious.StatusOnly | UserStory29_PIN_SearchPreviousRequest.py:85-111 | with no filter and no query the search is the status test alone (an empty filter map matches everything) |
| SearchPrevious.FilterKinds | UserStory29_PIN_SearchPreviousRequest.py:60-69 | a str filter is a case-insensitive substring test, unchanged by the case of the query; an int filter is Python equality |
| Shortlist.ShortlistSignal | UserStory23_CSR_SearchShortlist.py:59-78 | the three detection loops answer exactly the shortlist test: a boolean True under one of four flag keys, status 'shortlisted' in any case, or a non-empty list or non-blank string under one of three list keys |
| Shortlist.FlagsMustBeBooleans | UserStory23_CSR_SearchShortlist.py:60-64 | a record whose every field is the int 1 is not shortlisted: flags must be real booleans |
| Shortlist.AnySignalSuffices | UserStory21_CSR_ViewShortlist.py:47-71 | a favourite flag, the status 'Shortlisted', or a `shortlisted_by` list naming a CSR each make a record shortlisted |
| SearchShortlist.EntitySearch | UserStory23_CSR_SearchShortlist.py:80-141 | the loop keeps, in store order, the records that pass the shortlist gate (when asked) and every supplied criterion |
| SearchShortlist.SearchShortlist | UserStory23_CSR_SearchShortlist.py:23-46 | data None becomes {}, non-dict data is refused, shortlisted None becomes True, a missing loader is refused; otherwise the entity's filter |
| SearchShortlist.ShortlistedThenSearched | UserStory23_CSR_SearchShortlist.py:96-99 | with a truthy flag the search is the PIN search applied to the shortlisted records |
| SearchShortlist.UnflaggedIsPinSearch | UserStory23_CSR_SearchShortlist.py:96-99 | with a falsy flag the shortlist predicate is not applied and the search is the PIN search |
| SearchShortlist.OnlyShortlisted | UserStory23_CSR_SearchShortlist.py:96-99 | with shortlisted=True every result satisfies the shortlist test |
| ViewShortlist.EntityGetShortlist | UserStory21_CSR_ViewShortlist.py:34-88 | without a loader it answers the error; otherwise one projected item per shortlisted record, in store order |
| ViewShortlist.GetShortlist | UserStory21_CSR_ViewShortlist.py:23-26 | the controller answers what the entity answers |
| ViewShortlist.ShortlistExact | UserStory21_CSR_ViewShortlist.py:43-86 | every shortlisted record appears as its projection, every item projects a shortlisted stored record, and there are no more items than records |
| SaveShortlist.EntitySaveRequestSL | UserStory24_CSR_SaveRequestShortlist.py:48-120 | an unknown id is not found and a record already showing a shortlist signal is refused, both unsaved; without a saver there is an error; otherwise exactly the found record is marked and the list saved |
| SaveShortlist.SaveRequestSL | UserStory24_CSR_SaveRequestShortlist.py:24-40 | a blank id, a missing loader or a missing saver are refused before loading, with nothing saved; otherwise an unknown id is not found and an already shortlisted match is refused, both unsaved; any other first match is marked in place and the whole list saved, and the answer is the save error when saving fails or the success message |
| SaveShortlist.MarkedIsShortlisted | UserStory24_CSR_SaveRequestShortlist.py:91-109 | a marked record passes the shortlist test |
| SaveShortlist.MarkWritesRepOnce | UserStory24_CSR_SaveRequestShortlist.py:91-107 | marking a record without any shortlist signal sets `shortlisted` True and `shortlisted_by` to the one-element list ['CSR_Rep'] |
| SaveShortlist.MarkKeepsOthers | UserStory24_CSR_SaveRequestShortlist.py:91-109 | a truthy status is kept and an empty one becomes 'Shortlisted'; every other field is kept and only the three marked keys may be added |
| SaveShortlist.SecondSaveRefused | UserStory24_CSR_SaveRequestShortlist.py:62-89 | after a save the same id finds the same record and it is shortlisted, so saving twice fails the second time |
| ViewCount.EntityShowViewCount | UserStory27_PIN_ViewRequestViewCount.py:42-64 | without a loader it answers the error; otherwise the view count of the first id match, or not found |
| ViewCount.ShowViewCount | UserStory27_PIN_ViewRequestViewCount.py:23-34 | a blank id and a missing loader are refused; otherwise the entity's answer |
| ViewCount.ViewCountReading | UserStory27_PIN_ViewRequestViewCount.py:51-60 | the count reads `viewCount`, else `view_count`, else `views`: an int or a decimal string gives its value, an unparsable string or nothing gives 0 |
| ShortlistCount.EntityShowShortlistCount | UserStory28_PIN_ViewShortlistCount.py:40-68 | without a loader it answers the error; otherwise the shortlist count of the first id match, or not found |
| ShortlistCount.ShowShortlistCount | UserStory28_PIN_ViewShortlistCount.py:22-32 | a blank id and a missing loader are refused; otherwise the entity's answer |
| ShortlistCount.DerivedCountIsLength | UserStory28_PIN_ViewShortlistCount.py:52-59 | without a stored count the count is never negative and a non-empty `shortlisted_by` list counts its length |
| ShortlistCount.SavedRequestCountsOne | UserStory28_PIN_ViewShortlistCount.py:49-64 | a request saved to the shortlist once, with no stored count, counts 1 |
| CsrLogin.UserAccount.constructor | UserStory18_CSR_Login.py:43-45 | a new account remembers no username and no password |
| CsrLogin.UserAccount.Login | UserStory18_CSR_Login.py:47-95 | without a loader it answers the error; otherwise the login verdict: an unknown role, then a list username (which raises at the dict lookup), then a missing account, then the password check; a successful login stores the username and the stored password, any other outcome leaves both unchanged |
| CsrLogin.ProcessLogin | UserStory18_CSR_Login.py:23-38 | a missing or blank username and a None or empty password are refused with the account unchanged; then a missing loader; otherwise the entity's verdict; a successful login stores the username and the stored password on the account, any other outcome leaves both unchanged |
| CsrLogin.LoginSucceedsOnlyWhenValid | UserStory18_CSR_Login.py:53-95 | a login succeeds exactly for an existing role, an existing account and an accepted password, and then names the role and user |
| CsrLogin.ListUsernameRaises | UserStory18_CSR_Login.py:53-61 | under an existing role a list username raises TypeError whatever the password; under a missing role the role error is answered first |
| CsrLogin.PlainComparison | UserStory18_CSR_Login.py:75-76 | without a checker the password is compared with Python `==` |
| CsrLogin.CheckerRetried | UserStory18_CSR_Login.py:70-74 | a checker that raises TypeError is retried with its arguments swapped |
| CsrLogin.RoleDefaults | UserStory18_CSR_Login.py:53-58 | a missing or empty role means 'csr', a padded role is trimmed, and a store without that role refuses the login |
| AdminCreateAccount.UserAccount.constructor | UserStory1_Admin_create.py:47-48 | the simulated database starts empty |
| AdminCreateAccount.UserAccount.CreateAccount | UserStory1_Admin_create.py:50-53 | appends exactly the given credentials and answers the success message |
| AdminCreateAccount.SubmitCreateAcc | UserStory1_Admin_create.py:16-35 | the page and controller answer and leave the table as the create step says |
| AdminCreateAccount.CreateAccountOutcome | UserStory1_Admin_create.py:31-35 | the account is created exactly when username and password are both non-empty; then exactly one entry is appended after the old ones, otherwise the table is unchanged |
| AdminCreateAccount.DuplicatesKept | UserStory1_Admin_create.py:50-53 | creating the same account twice succeeds twice and stores two more copies: there is no duplicate check |
| AdminViewAccount.FindAccountFirst | UserStory2_Admin_viewUserAccount.py:63-68 | no account is found exactly when none matches both username and password; a found account is the first that matches |
| AdminViewAccount.DetailsOnMatchOnly | UserStory2_Admin_viewUserAccount.py:31-41 | the invalid-credentials message is answered exactly when nothing matches; otherwise the details begin with the username and password |
| AdminViewAccount.SeedLookup | UserStory2_Admin_viewUserAccount.py:57-61 | the seeded admin01/admin123 account is found, and admin01 with another password is not |
| AdminUpdateAccount.UserAccount.constructor | UserStory3_Admin_updateUserAccount.py:51-57 | the table starts as the three seeded accounts |
| AdminUpdateAccount.UserAccount.SubmitUpdate | UserStory3_Admin_updateUserAccount.py:59-65 | answers and leaves the table as the update step says |
| AdminUpdateAccount.UpdateAccount | UserStory3_Admin_updateUserAccount.py:16-37 | the page and controller answer and leave the table as the submit step says |
| AdminUpdateAccount.OnlyPasswordChanges | UserStory3_Admin_updateUserAccount.py:59-65 | the update succeeds exactly when some account has the username; then only the first such account's password changes, otherwise nothing changes; names, emails and phones are always kept |
| AdminUpdateAccount.EmptyFieldsRefused | UserStory3_Admin_updateUserAccount.py:33-34 | an empty username or password is refused with the table unchanged |
| AdminSuspendAccount.UserAccount.constructor | UserStory4_Admin_suspend.py:60-66 | the table starts as the three seeded active accounts |
| AdminSuspendAccount.UserAccount.SuspendAccount | UserStory4_Admin_suspend.py:68-80 | answers and leaves the table as the suspend step says |
| AdminSuspendAccount.SuspendIdempotent | UserStory4_Admin_suspend.py:74-77 | suspending again answers "already suspended" and changes nothing |
| AdminSuspendAccount.PasswordCheckedFirst | UserStory4_Admin_suspend.py:71-79 | for an existing user a wrong admin password is refused before the status is looked at, with nothing changed |
| AdminSuspendAccount.OnlyStatusChanges | UserStory4_Admin_suspend.py:68-80 | the table keeps its length; only a success changes it, and then only the first matching account, from not suspended to 'Suspended'; an unknown user is not found |
| AdminSearchAccount.UserAccount.constructor | UserStory5_Admin_SearchAccount.py:58-64 | the table starts as the three seeded accounts |
| AdminSearchAccount.UserAccount.SearchAccount | UserStory5_Admin_SearchAccount.py:66-93 | the loop answers what the search step says, without changing the table |
| AdminSearchAccount.SubmitSearch | UserStory5_Admin_SearchAccount.py:16-22 | a missing username or keyword is refused, otherwise the entity's answer |
| AdminSearchAccount.ResultsExact | UserStory5_Admin_SearchAccount.py:71-79 | for an admin the results are the ordered subsequence of accounts whose username or email contains the keyword ignoring case, or whose phone contains it |
| AdminSearchAccount.ResultsMessage | UserStory5_Admin_SearchAccount.py:81-93 | the search reports success exactly when some account matches, and otherwise "No results found" for the keyword |
| AdminSearchAccount.OnlyAdminSearches | UserStory5_Admin_SearchAccount.py:67-69 | 'admin' in any case may search; any other name is refused as unauthorized with no results |
| AdminSearchAccount.KeywordIgnoresCase | UserStory5_Admin_SearchAccount.py:74-78 | the results do not depend on the case of the keyword |
| AdminLogin.SuccessReadAsSuccess | UserStory11_Admin_login.py:46-52 | the entity's success message reads as a successful login |
| AdminLogin.RefusalReadAsRefusal | UserStory11_Admin_login.py:46-52 | the entity's refusal reads as invalid credentials |
| AdminLogin.LoginExact | UserStory11_Admin_login.py:46-76 | the login succeeds exactly when some account has both the username and the password; otherwise it answers invalid credentials |
| AdminLogin.SeedLogins | UserStory11_Admin_login.py:64-69 | admin2 logs in with its seeded password and not with another account's |
| AdminCreateProfile.UserAccount.constructor | UserStory6_Admin_CreateProfile.py:60-61 | the table starts empty |
| AdminCreateProfile.UserAccount.CreateProfile | UserStory6_Admin_CreateProfile.py:63-76 | answers and leaves the table as the create step says |
| AdminCreateProfile.SubmitCreateProfile | UserStory6_Admin_CreateProfile.py:16-19 | the page and controller answer and leave the table as the submit step says |
| AdminCreateProfile.CreateKeepsUnique | UserStory6_Admin_CreateProfile.py:64-66 | creating keeps usernames and emails unique in the table |
| AdminCreateProfile.CreateOutcome | UserStory6_Admin_CreateProfile.py:63-76 | a username or email already present is refused with the table unchanged; otherwise exactly the new account is appended and the message names its full name and status |
| AdminCreateProfile.SecondCreateRefused | UserStory6_Admin_CreateProfile.py:64-66 | a second account sharing the username or email is refused after the first succeeded |
| AdminCreateProfile.EmptyFieldRefused | UserStory6_Admin_CreateProfile.py:16-18 | any one of the six fields empty (full name, email, username, password, role or status) is refused with the table unchanged; with all six filled the page does what the entity does |
| AdminViewProfile.ProfileTextReadsBack | UserStory7_Admin_ViewUsrProfile.py:67-73 | the profile text splits back into its four labelled lines between a leading and a trailing newline |
| AdminViewProfile.DetailsExact | UserStory7_Admin_ViewUsrProfile.py:64-75 | no profile is found exactly when no id matches; otherwise the text of the first profile with the id |
| AdminViewProfile.ZeroRefused | UserStory7_Admin_ViewUsrProfile.py:16-19 | a falsy id 0 is refused by the page, and the seeded profile 103 is shown |
| AdminUpdateProfile.UserProfile.constructor | UserStory8_Admin_updateUserProfile.py:46-51 | the table starts as the three seeded profiles |
| AdminUpdateProfile.UserProfile.FindProfile | UserStory8_Admin_updateUserProfile.py:53-57 | nothing is found exactly when no profile has the id; otherwise the first profile with the id |
| AdminUpdateProfile.UserProfile.UpdateProfile | UserStory8_Admin_updateUserProfile.py:59-65 | the loop answers and renames as the update step says |
| AdminUpdateProfile.SubmitUpdate | UserStory8_Admin_updateUserProfile.py:38-42 | the controller answers and leaves the table as the submit step says |
| AdminUpdateProfile.LookupRedundant | UserStory8_Admin_updateUserProfile.py:38-42 | the controller's own lookup changes no answer: submitting is the entity's update |
| AdminUpdateProfile.OnlyNameChanges | UserStory8_Admin_updateUserProfile.py:59-65 | an unknown id is refused with the table unchanged; otherwise only the first profile with the id is renamed, and the message names both the old and the new name |
| AdminUpdateProfile.MessageNamesBoth | UserStory8_Admin_updateUserProfile.py:64 | the success message contains the old and the new name |
| AdminUpdateProfile.LastRenameWins | UserStory8_Admin_updateUserProfile.py:59-65 | renaming twice leaves the table as renaming once to the second name |
| AdminSuspendProfile.UserProfile.constructor | UserStory9_Admin_suspendUserProfile.py:55-60 | the table starts as the three seeded profiles |
| AdminSuspendProfile.UserProfile.FindProfile | UserStory9_Admin_suspendUserProfile.py:62-66 | the first profile with the id, or none |
| AdminSuspendProfile.UserProfile.SuspendProfile | UserStory9_Admin_suspendUserProfile.py:68-75 | the loop answers and suspends as the suspend step says |
| AdminSuspendProfile.ControllerSuspend | UserStory9_Admin_suspendUserProfile.py:45-51 | the controller answers and leaves the table as its step says |
| AdminSuspendProfile.PageSuspend | UserStory9_Admin_suspendUserProfile.py:13-19 | the page answers and leaves the table as its step says |
| AdminSuspendProfile.SuspendIdempotent | UserStory9_Admin_suspendUserProfile.py:71-73 | suspending a found, name-matching profile a second time answers that it is already suspended and changes nothing |
| AdminSuspendProfile.SuspendExact | UserStory9_Admin_suspendUserProfile.py:45-75 | the table changes exactly when the first profile with the id has the name ignoring case and is not suspended, and then only its status becomes "Suspended" and the message names it |
| AdminSuspendProfile.NoFirstWithoutMatch | UserStory9_Admin_suspendUserProfile.py:62-66 | when the lookup finds nothing, no profile carries the id |
| AdminSuspendProfile.FirstWithIdUnique | UserStory9_Admin_suspendUserProfile.py:62-66 | the first profile with an id is unique |
| AdminSuspendProfile.NameIgnoresCase | UserStory9_Admin_suspendUserProfile.py:49 | the name check ignores case |
| AdminSearchProfile.SearchFirstHit | UserStory10_Admin_SearchUsrProfile.py:53-57 | nothing is found exactly when no profile has the id or the name ignoring case; otherwise the first profile that does |
| AdminSearchProfile.TextExact | UserStory10_Admin_SearchUsrProfile.py:38-42 | the controller answers "no matching user" exactly when no profile matches |
| AdminSearchProfile.NameIgnoresCase | UserStory10_Admin_SearchUsrProfile.py:55 | the search does not depend on the case of the name |
| AdminSearchProfile.EarlierNameWins | UserStory10_Admin_SearchUsrProfile.py:47-56 | on the seed, an earlier profile matching by name wins over a later one matching by id |
| PmLogin.PageAsWrittenRejectsValidLogin | UserStory41_PM_login.py:16-18 | as written, the page calls a controller method that does not exist, so even the seeded pm_admin login raises while the controller would accept it |
| PmLogin.PageLoginExact | UserStory41_PM_login.py:45-74 | through the corrected page, the login succeeds exactly when some account has both the username and the password, and answers "Invalid credentials" otherwise |
| CreateCategory.CategoryList.constructor | UserStory33_PM_createCategory.py:41-46 | the list starts as the three seeded categories, with distinct names and ids 1..n |
| CreateCategory.CategoryList.Create | UserStory33_PM_createCategory.py:48-54 | the loop answers and appends as the create step says, keeping names distinct and ids consecutive |
| CreateCategory.SubmitCreateCategory | UserStory33_PM_createCategory.py:10-14 | a blank name is refused with the list unchanged; otherwise the stripped name is created |
| CreateCategory.CreateKeepsInvariants | UserStory33_PM_createCategory.py:49-53 | creating keeps names distinct ignoring case and ids equal to positions plus one |
| CreateCategory.CreateOutcome | UserStory33_PM_createCategory.py:48-54 | creation succeeds exactly when no name equals the new one ignoring case; then the category with id length+1 is appended and nothing else changes, otherwise the list stays |
| CreateCategory.CreateTwiceRefused | UserStory33_PM_createCategory.py:49-51 | creating the same name again, in any case, is refused |
| CreateCategory.SeedValid | UserStory33_PM_createCategory.py:42-46 | the seeded list has distinct names and consecutive ids |
| UpdateCategory.CategoryList.constructor | UserStory35_PM_UpdateServiceCategory.py:46-52 | the list starts as the four seeded categories |
| UpdateCategory.CategoryList.SubmitUpdate | UserStory35_PM_UpdateServiceCategory.py:54-61 | the loop answers and renames as the update step says |
| UpdateCategory.UpdateInfo | UserStory35_PM_UpdateServiceCategory.py:10-14 | an id that is not a positive int, or a blank name, is refused with the list unchanged; otherwise the stripped name goes to the entity |
| UpdateCategory.UpdateOnlyFirst | UserStory35_PM_UpdateServiceCategory.py:54-61 | ids never change; the update succeeds exactly when some category has the id and the name is not blank, and then only the first such category takes the new name |
| UpdateCategory.UnknownIdRefused | UserStory35_PM_UpdateServiceCategory.py:61 | an id no category has is refused with the list unchanged |
| UpdateCategory.TrueSelectsFirstCategory | UserStory35_PM_UpdateServiceCategory.py:10-14 | `True` passes the page's int check and, being equal to 1, renames category 1 |
| DeleteCategory.CategoryList.constructor | UserStory36_PM_DeleteCategory.py:50-56 | the list starts as the four seeded categories |
| DeleteCategory.CategoryList.DeleteRequest | UserStory36_PM_DeleteCategory.py:58-63 | the loop answers and removes as the delete step says |
| DeleteCategory.AskConfirmation | UserStory36_PM_DeleteCategory.py:10-11 | the first page step only asks for confirmation |
| DeleteCategory.DeleteConfirm | UserStory36_PM_DeleteCategory.py:13-14 | the confirmed page deletes as the entity does |
| DeleteCategory.DeleteDropsOne | UserStory36_PM_DeleteCategory.py:58-63 | the delete succeeds exactly when some category has the id; then exactly the first such category is removed and the others keep their order, otherwise the list stays |
| DeleteCategory.RepeatedDeleteUnsuccessful | UserStory36_PM_DeleteCategory.py:58-63 | with unique ids, deleting the same id again is unsuccessful and changes nothing |
| SearchCategory.MatchesAreHits | UserStory37_PM_SearchCetegory.py:49-52 | every category whose name contains the keyword ignoring case has its line among the hits |
| SearchCategory.HitsAreMatches | UserStory37_PM_SearchCetegory.py:49-52 | every hit is the line of a category whose name contains the keyword |
| SearchCategory.HitsExact | UserStory37_PM_SearchCetegory.py:49-53 | the hits are exactly the lines of matching categories, at most one per category, and there are none exactly when nothing matches |
| SearchCategory.SearchReadsBack | UserStory37_PM_SearchCetegory.py:50-53 | "error message" when nothing hits; otherwise the answer splits on newlines back into the hit lines |
| SearchCategory.SearchIgnoresCase | UserStory37_PM_SearchCetegory.py:52 | the answer does not depend on the case of the keyword |
| SearchCategory.SubmitTrims | UserStory37_PM_SearchCetegory.py:10-14 | a blank keyword is refused; otherwise the stripped keyword is searched, so stripping first changes nothing |
| Report.LineShape | UserStory38_PM_dailyReport.py:45-49 | the count of a report line reads back as the number after its last space |
| Report.ReportSplits | UserStory38_PM_dailyReport.py:43-50 | the report text splits on newlines back into its heading and its five count lines |
| Report.Buckets | UserStory38_PM_dailyReport.py:86-91 | the single pass yields, for each of the three statuses, the entries of exactly the requests with that status, in list order |
| Report.BucketsPartition | UserStory40_PM_monthlyReport.py:101-108 | the three bucket sizes add up to the number of requests with a known status, which is at most the number of requests |
| DailyReport.SeedBuckets | UserStory38_PM_dailyReport.py:79-91 | the seeded requests give 2 pending, 1 assigned and 1 completed |
| DailyReport.GenerateReport | UserStory38_PM_dailyReport.py:36-50 | the daily report counts 3 categories, 3 users and requests 2/1/1 |
| DailyReport.SubmitGenerateReport | UserStory38_PM_dailyReport.py:10-13 | an option other than "daily" after strip and lower is refused; otherwise the daily report |
| MonthlyReport.SeedBuckets | UserStory40_PM_monthlyReport.py:82-108 | the seeded requests give 1 pending, 1 assigned and 2 completed |
| MonthlyReport.GenerateReport | UserStory40_PM_monthlyReport.py:36-50 | the monthly report counts 4 categories, 5 users and requests 1/1/2 |
| MonthlyReport.SubmitGenerateReport | UserStory40_PM_monthlyReport.py:10-13 | an option other than "monthly" after strip and lower is refused; otherwise the monthly report |
| WeeklyReport.ParseIsoDate | UserStory39_PM_weeklyReport.py:31-49 | a falsy or non-string value parses to nothing; a non-empty string to the day the date parser gives |
| WeeklyReport.WindowBounds | UserStory39_PM_weeklyReport.py:57-64 | the window holds today and today-6, and neither today-7 nor tomorrow; a value with no date is outside |
| WeeklyReport.NormStatusRange | UserStory39_PM_weeklyReport.py:67-79 | the status is one of the three buckets, Pending for a falsy status, and raises exactly for a truthy non-string |
| WeeklyReport.NormStatusIgnoresCaseAndBlanks | UserStory39_PM_weeklyReport.py:74 | statuses equal after strip and lower normalise alike |
| WeeklyReport.NormStatusExamples | UserStory39_PM_weeklyReport.py:75-79 | "complete" is Completed, and an unknown status such as "done" is Pending |
| WeeklyReport.NormStatusInProgress | UserStory39_PM_weeklyReport.py:77-78 | "in progress" and "in_progress" are Assigned |
| WeeklyReport.FileRequest | UserStory39_PM_weeklyReport.py:195-208 | one loop pass fails exactly when the request is in the window and its status cannot be normalised; otherwise it appends the request's summary to the bucket it lands in and to no other |
| WeeklyReport.RequestReport | UserStory39_PM_weeklyReport.py:181-211 | the loop raises exactly when a request in the window has a status that cannot be normalised; otherwise each bucket holds the summaries of the in-window requests of that status, in file order |
| WeeklyReport.StaleUpdateHidesRecentCreation | UserStory39_PM_weeklyReport.py:196-198 | an update stamp 30 days old keeps a request out of the week whatever its creation date |
| WeeklyReport.BucketsPartition | UserStory39_PM_weeklyReport.py:194-209 | when nothing raises, the three buckets together hold one entry per in-window request |
| WeeklyReport.EntriesMatchBucket | UserStory39_PM_weeklyReport.py:200-205 | every entry of a bucket carries that bucket's status and a day within the window |
| WeeklyReport.CategoryReport | UserStory39_PM_weeklyReport.py:136-152 | the loop yields one normalised row per stored category, in order |
| WeeklyReport.CategoryRowsShape | UserStory39_PM_weeklyReport.py:144-151 | one row per category, each with a truthy name, and the stored id whenever it is truthy |
| WeeklyReport.FlattenBucket | UserStory39_PM_weeklyReport.py:165-173 | the inner loop yields the rows of one role bucket, or raises as the row function says |
| WeeklyReport.FlattenUsers | UserStory39_PM_weeklyReport.py:162-173 | the nested loops yield the rows of all role buckets in order, or raise |
| WeeklyReport.SortUsers | UserStory39_PM_weeklyReport.py:175 | the sort raises exactly when some row's id cannot be read as an int; otherwise it returns a permutation of the rows (each as often as before) ordered by (role, id) |
| WeeklyReport.UserReport | UserStory39_PM_weeklyReport.py:157-176 | the user report raises exactly when flattening or sorting does; otherwise it holds a permutation of the flattened rows, sorted by (role, id) |
| WeeklyReport.GenerateReport | UserStory39_PM_weeklyReport.py:114-131 | the controller's text counts the categories, users and the three weekly buckets, or raises |
| WeeklyReport.SubmitGenerateReport | UserStory39_PM_weeklyReport.py:87-90 | a non-string option raises, an option other than "weekly" is refused with the fixed error, otherwise the weekly report |
| MaxAppIds.NormalizeRoleCases | Max_app.py:44-51 | a falsy role is "csr"; the long and short CSR labels, after strip and lower, are "csr"; any other role is its stripped lower-case form |
| MaxAppIds.LongLabelIsCsr | Max_app.py:49-50 | the UI label "CSR Representative" normalises to "csr" |
| MaxAppIds.ShortLabelIsCsr | Max_app.py:48-51 | "Csr Rep" normalises to "csr" and " PIN " to "pin" |
| MaxAppIds.NormalizeRoleIdempotent | Max_app.py:44-51 | a normalised role is stripped and has no upper-case letter, and normalising it again changes nothing |
| MaxAppIds.NormalizeRoleBlank | Max_app.py:46-48 | a blank but truthy role normalises to "", while the empty role defaults to "csr" |
| MaxAppIds.CanonIdempotent | Max_app.py:627-631 | a canonical id starts with "REQ-", is stripped, and is its own canonical form |
| MaxAppIds.CanonSpellings | Max_app.py:627-631 | "7", "REQ-7" and the integer 7 all canonicalise to "REQ-7" |
| MaxAppIds.CanonLowerPrefix | Max_app.py:629-630 | the prefix test ignores case, so "req-7" is "REQ-7" |
| MaxAppIds.CanonPadded | Max_app.py:628 | surrounding blanks are dropped before the prefix test |
| MaxAppIds.CanonOfStripped | Max_app.py:628 | stripping a string first does not change its canonical id |
| MaxAppIds.PlainIdStripsOnePrefix | Max_app.py:633-637 | the plain id drops exactly one "REQ-" prefix in either case, and keeps an unprefixed string |
| MaxAppIds.PlainIdOfInt | Max_app.py:634-635 | the plain id of an integer is its decimal form, and its canonical id is that form prefixed |
| MaxAppIds.CanonIsPrefixedPlain | Max_app.py:627-637 | for a value whose text is already stripped, the canonical id is "REQ-" followed by the plain id |
| MaxAppIds.OwnsExact | Max_app.py:859-864 | a request is owned exactly when the caller name is non-empty and equals the stripped owner ignoring case; raising for a truthy non-string owner |
| MaxAppIds.OwnsPaddedOwner | Max_app.py:862-864 | owner " Alice " is owned by caller "ALICE" |
| MaxAppIds.SuspendedCases | Max_app.py:607-615 | a missing role bucket and an unknown user in an existing bucket are not suspended; a " Suspended" status is, an "Active" one is not |
| MaxAppIds.InactiveSuspended | Max_app.py:614-615 | an 'inactive' account counts as suspended |
| MaxAppIds.SuspendedByNormalForm | Max_app.py:613-615 | for any string status only its trimmed, lower-cased form matters: accounts whose forms agree get the same answer, and the answer is whether that form is 'suspended' or 'inactive' |
| MaxAppIds.VerifyPasswordCases | Max_app.py:106-120 | a non-string stored password never matches; a plain one matches only itself; an scrypt or pbkdf2 hash matches exactly when the hash check accepts |
| MaxAppIds.HashPrefixOf | Max_app.py:106-116 | the hash scheme is the lower-cased text before the first colon |
| MaxAppIds.HashSchemeIgnoresCase | Max_app.py:106-116 | an upper-case "PBKDF2:" hash is read as pbkdf2 |
| MaxAppViews.IncrementViewCount | Max_app.py:642-656 | the loop bumps and saves as the view bump step says |
| MaxAppViews.BumpRecord | Max_app.py:649-651 | bumping one found record as the step says |
| MaxAppViews.FindRequest | Max_app.py:644-648 | the loop stops at the first request whose canonical id is the canonical request id |
| MaxAppViews.BumpedRecord | Max_app.py:649-650 | a bumped record carries the new count and the view stamp, and every other field unchanged |
| MaxAppViews.BumpedViews | Max_app.py:649-651 | the stored count of a bumped record reads back as the new count |
| MaxAppViews.ViewBumpUnknown | Max_app.py:653-654 | when no request matches, the answer is 0 and nothing is saved |
| MaxAppViews.ViewBumpSaved | Max_app.py:647-656 | a save happens only at the first matching request: its count becomes the stored count plus the step, it is stamped, and every other request and field stays |
| MaxAppViews.ViewBumpNoSave | Max_app.py:647-654 | without a save, either nothing matched and the answer is 0, or the stored count could not be read and the route raises |
| MaxAppViews.StoredViewsDefaults | Max_app.py:649 | a missing or falsy count reads as 0, an integer count as itself |
| MaxAppViews.ViewBumpsAdd | Max_app.py:642-656 | for any request selector the bump keeps matching, two bumps add their steps |
| MaxAppViews.ViewBumpsAddUp | Max_app.py:642-656 | two views by canonical id raise the stored count by the sum of their steps |
| MaxAppViews.PinListMyRequests | Max_app.py:866-887 | the loop answers as the PIN list says |
| MaxAppViews.PinListOnlyOwn | Max_app.py:866-887 | without a PIN identity the list is refused; otherwise it raises exactly when an owner cannot be read, and else holds one row per own request, in file order, and no other request |
| MaxAppViews.PinSearchOnlyOwn | Max_app.py:909-935 | without a PIN identity the search is refused; a search error passes through; otherwise the rows are the caller's own among the search results, in order |
| MaxAppViews.DetailRecord | Max_app.py:902-906 | the detail copy carries the view count, the shortlist count when one is given, and every other stored field |
| MaxAppViews.PinDetailShown | Max_app.py:889-907 | a shown detail is the first matching request, owned by the caller, with its stored view count and every other field copied |
| MaxAppViews.PinDetailOthersHidden | Max_app.py:897-899 | a request owned by someone else is answered "Not found" |
| MaxAppViews.PinDetailUnknown | Max_app.py:897-899 | an id no request matches is answered "Not found" |
| MaxAppShortlist.InsertNameSorted | Max_app.py:569-571 | inserting a name into a strictly sorted list keeps it strictly sorted and adds exactly that name |
| MaxAppShortlist.SortedNamesExact | Max_app.py:569-571 | `sorted(set(...))` is strictly sorted and holds exactly the given names |
| MaxAppShortlist.MarkFirst | Max_app.py:567-574 | the loop marks the first matching request, as the marked-list function says |
| MaxAppShortlist.CsrShortlistSave | Max_app.py:549-576 | the route answers and writes as the save function says |
| MaxAppShortlist.CsrShortlistRemove | Max_app.py:578-603 | the route answers and writes as the remove function says |
| MaxAppShortlist.KeepOthers | Max_app.py:588 | the comprehension keeps every entry other than the id, in order |
| MaxAppShortlist.CsrShortlistGet | Max_app.py:514-547 | the route answers as the shortlist view function says |
| MaxAppShortlist.ResolveAll | Max_app.py:524-528 | the lookup loop collects, in order, the request each listed id resolves to, and skips ids that resolve to nothing |
| MaxAppShortlist.ProjectRows | Max_app.py:530-546 | the projection loop yields one row per found request, in order |
| MaxAppShortlist.ShortlistIdPrefixed | Max_app.py:554 | the shortlist id always has the prefix, keeps a prefixed path and prefixes any other, and is its own shortlist id |
| MaxAppShortlist.ShortlistIdSpellings | Max_app.py:554 | "7" and "REQ-7" both file as "REQ-7", while "req-7" is kept as written |
| MaxAppShortlist.MarkedListExact | Max_app.py:567-574 | with no matching request the list is unchanged; otherwise only the first match is replaced by its mark, or the whole route raises when the mark cannot be made |
| MaxAppShortlist.SavedMarkExact | Max_app.py:569-572 | the saved mark raises exactly when the markers cannot be read; otherwise the request is flagged, its markers are the sorted old names plus the caller, and every other field stays |
| MaxAppShortlist.RemovedMarkExact | Max_app.py:595-599 | the removed mark drops one occurrence of the caller, sets the flag to whether names remain, and keeps every other field |
| MaxAppShortlist.SaveLedger | Max_app.py:553-576 | an id already in the caller's list is answered "Already shortlisted" with nothing written; otherwise it is appended once to the caller's list only, and the request list is marked as the save says |
| MaxAppShortlist.SaveTwice | Max_app.py:558-559 | saving the same id again is answered "Already shortlisted" and writes nothing |
| MaxAppShortlist.RemoveLedger | Max_app.py:582-603 | an id not in the caller's list is answered "Already not in your shortlist"; otherwise every occurrence leaves the caller's list, the order of the rest is kept, and no other caller's list changes |
| MaxAppShortlist.SavedLedgerIs | Max_app.py:557-563 | a written ledger is the old one with the id appended to the caller's list |
| MaxAppShortlist.RemovedLedgerIs | Max_app.py:586-590 | a written ledger is the old one with the id filtered out of the caller's list |
| MaxAppShortlist.SaveThenRemove | Max_app.py:549-603 | removing what was just saved gives every caller back the list it had |
| MaxAppShortlist.ByIdFinds | Max_app.py:523 | the id index finds a request with that id text, and finds nothing exactly when none has it |
| MaxAppShortlist.ByIdLastWins | Max_app.py:523 | in the id index a later request with the same id wins |
| MaxAppShortlist.ResolveFinds | Max_app.py:526-527 | a resolved id names a stored, non-empty request whose id is the key or the key without "REQ-" |
| MaxAppShortlist.ResolvedFromIds | Max_app.py:525-528 | at most one result per listed id, each of them the resolution of some listed id |
| MaxAppShortlist.RowsFromIds | Max_app.py:530-546 | at most one row per listed id, each row shown from a request some listed id resolves to |
| MaxAppShortlist.ResolvedComplete | Max_app.py:522-526 | every listed id that resolves to a non-empty request contributes that request to the lookup loop's results |
| MaxAppShortlist.GetOnlyMine | Max_app.py:514-547 | a non-CSR caller is refused; otherwise the rows come only from the caller's own list, at most one per distinct id, and every saved id that resolves is shown |
| MaxAppAssign.ChangeFound | Max_app.py:718-726 | the loop finds and changes the first matching request as the change function says |
| MaxAppAssign.MaxCsrAssignRequest | Max_app.py:710-727 | the route answers and writes as the assign function says |
| MaxAppAssign.MaxCsrUnassignRequest | Max_app.py:729-745 | the route answers and writes as the unassign function says |
| MaxAppAssign.MaxCsrCompleteRequest | Max_app.py:747-765 | the route answers and writes as the complete function says |
| MaxAppAssign.ChangeFirstExact | Max_app.py:718-727 | "Not found" exactly when no request matches or the first match is empty; a save exactly on success, replacing only the first match by its change |
| MaxAppAssign.AssignedExact | Max_app.py:722-725 | assigning raises exactly for a truthy non-string status; otherwise it stamps the caller and the time, moves a non-completed request to "in progress", and keeps every other field |
| MaxAppAssign.UnassignedExact | Max_app.py:740-743 | unassigning clears the assignee and stamp, moves a non-completed request to "pending", and keeps every other field |
| MaxAppAssign.CompletedExact | Max_app.py:759-763 | completing sets the status and stamp, keeps an existing assignee or stamps the caller, and keeps every other field |
| MaxAppAssign.UnassignUndoesAssign | Max_app.py:722-743 | unassigning after assigning gives what unassigning alone gives |
| MaxAppAssign.CompletedStays | Max_app.py:724-743 | a completed request stays "Completed" through a later assign or unassign |
| MaxAppAssign.CompleteTwiceKeepsAssignee | Max_app.py:761-763 | completing again keeps the first completion's assignee and stamp |
| MaxAppAssign.CallerNeverEmpty | Max_app.py:714 | the caller name is never empty: it falls back to "CSR" |
| MaxAppAssign.RoutesNeedLogin | Max_app.py:712-713 | without a role in the session, all three routes answer "Not authenticated" and write nothing |
| AppIds.UiStatusToFileCases | app.py:117-123 | a UI status that folds to "inactive" or "suspended" is stored as "Suspended"; anything else as "Active" |
| AppIds.FileStatusToUiCases | app.py:125-131 | a stored status that folds to "suspended" or "inactive" is shown as "inactive"; anything else as "active" |
| AppIds.UiFileRoundTrip | app.py:117-131 | storing a UI status and showing it back gives it again for "active" and "inactive" |
| AppIds.FileUiRoundTrip | app.py:117-131 | showing a stored status and storing it back gives its canonical stored form |
| AppIds.FoldedIdempotent | app.py:118 | folding (strip then lower) a folded status changes nothing |
| AppIds.NormalizeRoleIdempotent | app.py:111-115 | a falsy role normalises to ""; a normalised role is never "user" and normalises to itself |
| AppIds.ReqIdRoundTrip | app.py:680-696 | a request number prints as "REQ-n" and that text reads back as n |
| AppIds.ReqPrefixIgnored | app.py:686-696 | an id text reads the same with or without a "REQ-" prefix in either case |
| AppIds.Max | app.py:674 | the maximum is at least every element and is one of them |
| AppIds.StoredIdsExact | app.py:674 | the stored ids read exactly when every id reads as an int, one per request in order |
| AppIds.NextReqIdFresh | app.py:673-674 | the next id is 1 for no requests, raises exactly when some id cannot be read as an int, and otherwise exceeds every stored id by being one more than the largest |
| AppIds.NextCatId | app.py:566-576 | the loop yields the next category id as the category-id function says |
| AppIds.MaxReadAttained | app.py:567-575 | the largest suffix read is 0 or the suffix of some category |
| AppIds.MaxReadBound | app.py:567-575 | every readable suffix is at most the largest one read |
| AppIds.CatSuffixReads | app.py:576 | the suffix of "CAT-" + a padded number reads back as the number |
| AppIds.CatIdFresh | app.py:566-576 | the new id's suffix is the largest stored suffix plus one, and no stored category has the new id |
| AppIds.CatIdExamples | app.py:576 | with no categories the first id is "CAT-001" |
| AppUsers.ScanMaxId | app.py:76-82 | the loop yields the largest readable account id, or 0 |
| AppUsers.MaxIdExact | app.py:76-82 | every readable account id is at most the maximum, which is 0 or one of them |
| AppUsers.SetDefaultsExact | app.py:91-96 | `setdefault` adds exactly the missing keys, keeps every existing value, and gives a missing key its first default |
| AppUsers.MigrateUsersFile | app.py:73-102 | the migration saves what the migrate function says |
| AppUsers.BackfillStore | app.py:84-99 | the loop backfills the whole file as the fill function says, and reports a change exactly when an id was given out |
| AppUsers.BackfillBucket | app.py:87-99 | the inner loop backfills one role bucket as the fill function says |
| AppUsers.BackfilledKeeps | app.py:88-97 | a backfilled account gets the new id, the "U-" padded uid and the update stamp, and keeps every other stored field |
| AppUsers.BackfilledNames | app.py:91-93 | a backfilled account keeps its stored names and email, defaulting to the username and "" |
| AppUsers.BackfilledDefaults | app.py:94-96 | a backfilled account keeps its stored role, status and creation stamp, defaulting to the bucket, "Active" and the stamp |
| AppUsers.FillAccountsExact | app.py:87-99 | within a bucket, accounts with an id pass unchanged, the others are backfilled with ids in order, and the counter moves exactly when some account lacked an id |
| AppUsers.FillFileRange | app.py:86-99 | every id given out lies between the first free id and the final counter |
| AppUsers.FillFileOrdered | app.py:86-99 | ids are given out in increasing order of bucket and then account |
| AppUsers.FillFileMoved | app.py:84-101 | the counter moves exactly when some account lacked an id |
| AppUsers.MigrateExact | app.py:73-102 | nothing is written exactly when every account has an id; otherwise the file keeps its shape and names, keeps every account that had an id, and backfills each other account with a fresh id above every old one, in order |
| AppUsers.MigratedIdsFresh | app.py:76-98 | every id given out exceeds every readable stored id |
| AppUsers.MigrateOnce | app.py:88 | migrating a migrated file writes nothing |
| AppUsers.MigratedListed | app.py:88-146 | every backfilled account has a truthy id and is listed by the admin flatten |
| AppUsers.FlattenBucket | app.py:143-158 | the inner loop lists one bucket as the bucket-rows function says |
| AppUsers.FlattenFile | app.py:141-158 | the nested loops list the file as the flat-rows function says |
| AppUsers.SortById | app.py:159 | the sort raises exactly when some id cannot be read as an int; otherwise the same rows ordered by id |
| AppUsers.Flatten | app.py:140-160 | `_flatten` raises exactly when listing or sorting does; otherwise it returns the listed rows, as a permutation sorted by id |
| AppUsers.RowOfNone | app.py:147-158 | a row raises exactly when the role is a truthy non-string or the status is not a string |
| AppUsers.RowOfNames | app.py:148-151 | a row carries the stored id and the full name, defaulting to the username, under both "fullName" and "name" |
| AppUsers.RowOfKinds | app.py:154-155 | a row's role is lower-case, and its status is "inactive" exactly when the stored status folds to inactive or suspended, otherwise "active" |
| AppUsers.BucketRowsNone | app.py:143-158 | a bucket's listing raises exactly when some listed account's row raises |
| AppUsers.FlatRowsExact | app.py:141-158 | the listing raises exactly when some bucket's does; otherwise every row comes from an account with a truthy id, and every such account has its row listed |
| AppCategories.LoadCategories | app.py:545-561 | loading yields and writes as the load functions say, and what it writes is what it returns |
| AppCategories.LoadedExact | app.py:545-561 | a non-empty store is returned as is with nothing written; an empty one is replaced by the three seeded categories, with their ids, visibilities and stamps, and saved |
| AppCategories.ScanNames | app.py:601 | the scan answers as the name clash function says |
| AppCategories.CreateCategory | app.py:600-614 | the create step answers and writes as the create function says |
| AppCategories.ApiCategoriesCreate | app.py:589-614 | the route answers and writes as the create route function says |
| AppCategories.NameClashExact | app.py:601 | no clash exactly when no name raises or equals the new one ignoring case; a clash exactly when some category clashes before any name raises |
| AppCategories.CreateInRefuses | app.py:600-602 | a duplicate name is refused with 400 and nothing is saved; the category is created exactly when no name raises or clashes |
| AppCategories.CategoryFields | app.py:604-611 | a new category has exactly the six fields, with the given values and no update stamp |
| AppCategories.VisibilityExact | app.py:597-598 | the visibility is "public" or "hidden", and a valid one is kept |
| AppCategories.CreateInAppends | app.py:604-614 | a created category answers 201 and is appended to the stored list, under a fresh id one above the largest suffix |
| AppCategories.CreateRouteRefuses | app.py:591-596 | an empty name is refused with 400; a non-string field makes the route raise |
| AppCategories.CreateRouteLoads | app.py:592-614 | for a non-empty name the route answers as the create step on the loaded list, and writes the new list, or else the seed when one was written on loading |
| AppCategories.UpdatedExact | app.py:628-633 | the update sets the name only when a name is given, always sets the description and the stamp, sets a valid visibility, and keeps every other field |
| AppCategories.UpdateCategory | app.py:623-635 | the update step answers and writes as the update function says |
| AppCategories.ApiCategoriesUpdate | app.py:616-635 | the route answers and writes as the update route function says |
| AppCategories.UpdateInExact | app.py:623-635 | an unknown id is refused with 404 and nothing is saved; otherwise only the first category with the id is replaced by its update, and the answer is 200 |
| AppCategories.CollectInUse | app.py:646 | the comprehension collects exactly the requests that use the category |
| AppCategories.DeleteCategory | app.py:639-655 | the delete step answers and writes as the delete function says |
| AppCategories.ApiCategoriesDelete | app.py:637-655 | the route answers and writes as the delete route function says |
| AppCategories.DeleteInRefuses | app.py:639-651 | an unknown id is refused with 404; a category some request uses is refused with 409 and the number of those requests; in neither case is anything saved |
| AppCategories.DeleteInRemoves | app.py:653-655 | a removal drops exactly the first category with the id, keeps the order of the rest, and answers with its id |
| AppCategories.CreateThenDelete | app.py:600-655 | deleting a category just created, when no request uses its id, gives the list it was created in |
| AppCategories.NoStoredHasNewId | app.py:566-576 | no stored category has the next category id |
| AppRequests.FindById | app.py:840 | the scan answers as the id scan function says |
| AppRequests.ScanIdExact | app.py:840 | the scan finds the first request whose id reads as the number, with no id before it raising; it finds nothing exactly when no id raises or matches; it raises exactly when some id raises before any match |
| AppRequests.ScanIdUpdate | app.py:848-851 | changing a found request without touching its id keeps it found at the same place |
| AppRequests.LocateRequest | app.py:831-846 | the guards answer as the locate function says |
| AppRequests.CsrAssignRequest | app.py:828-853 | the route answers and writes as the assign function says |
| AppRequests.CsrUnassignRequest | app.py:855-878 | the route answers and writes as the unassign function says |
| AppRequests.LocateExact | app.py:831-846 | 401 exactly without a role, 400 exactly for an id that does not read as a number, 404 exactly when no request has it, 409 only when another caller holds it, naming the holder; otherwise the first request with the id, free or held by the caller |
| AppRequests.AssignExact | app.py:844-853 | a save exactly on success; then only the located request changes, gaining the caller, the stamp and its status lower-cased, with every other field kept |
| AppRequests.UnassignExact | app.py:871-878 | a save exactly on success; then only the located request changes, losing its assignee and stamp, with every other field kept |
| AppRequests.GuardsAgree | app.py:831-846 | assign and unassign locate the same request under the same conditions |
| AppRequests.AssignKeepsPlace | app.py:848-852 | after an assignment the request is found at the same place, held by the caller, and nothing else changed |
| AppRequests.HolderLocated | app.py:844-846 | the caller who assigned a request locates it again afterwards |
| AppRequests.AssignBlocksOthers | app.py:844-873 | once assigned, another caller's assign and unassign are refused with 409 naming the holder |
| AppRequests.ReleaseClaimed | app.py:848-876 | unassigning an assigned request clears the assignee and stamp, and keeps its lower-cased status and every other field |
| AppRequests.AssignThenUnassign | app.py:828-878 | the holder may assign again, and unassigning right after assigning releases only that request |
| AppCsrView.CatIndexRaises | app.py:923 | the category index raises exactly when some category has no id |
| AppCsrView.CatIndexKeys | app.py:923 | every category's id text is a key of the index |
| AppCsrView.CatIndexLast | app.py:923 | each key maps to the last category with that id text |
| AppCsrView.MapRowExact | app.py:698-729 | a row raises exactly for a non-string status or a truthy numeric creation stamp; otherwise it has a truthy title and category, the stored title when truthy, the "REQ-n" id that reads back as the stored number, no views, a shortlist count of 1 exactly when its id is shortlisted, a date that is at most the first ten characters of the creation stamp, and the assignee copied |
| AppCsrView.MapRowsExact | app.py:925 | mapping raises exactly when some row does; otherwise one row per request, in order |
| AppCsrView.OwnIdFound | app.py:927-930 | searching a row for its own id, lower-cased, never rejects it |
| AppCsrView.SearchOnRaises | app.py:927-930 | the search raises exactly when a keyword is given and some row's title or description cannot be read |
| AppCsrView.SearchOnFilters | app.py:927-934 | the search keeps exactly the rows that match every given criterion |
| AppCsrView.SearchOnExact | app.py:927-936 | the results are an ordered subsequence of the rows, hold exactly the matching rows, and are all rows when no criterion is given |
| AppShortlist.KeyCanonical | app.py:969-970 | "n", "REQ-n" and "req-n" all key the same entry "REQ-n" |
| AppShortlist.KeyVerbatim | app.py:970 | a path that is no request number keys itself |
| AppShortlist.SaveKeyAgrees | app.py:955-970 | the save and delete routes key a path alike unless it reads as request number 0 |
| AppShortlist.ZeroReads | app.py:686-696 | "req-0" reads as request number 0 |
| AppShortlist.SaveKeyZeroDisagrees | app.py:955-970 | as written, the save route keys "req-0" as "req-0" while the delete route keys it as "REQ-0" |
| AppShortlist.SaveExact | app.py:953-962 | for any key, whichever route computed it: a key already present is refused with 409 and nothing written; otherwise the key is appended once and every earlier entry is kept in place |
| AppShortlist.SaveTwice | app.py:957-959 | saving the same key twice is refused the second time with 409, with nothing written |
| AppShortlist.DeleteExact | app.py:967-977 | deleting always succeeds, writes exactly when the key is present, and then leaves every other key and not that one |
| AppShortlist.DeleteIdempotent | app.py:972-977 | a second delete finds nothing and writes nothing |
| AppShortlist.SaveThenDelete | app.py:953-977 | deleting what was just saved leaves the entries that were there before |
| AppShortlist.ZeroSaveStays | app.py:955-977 | as written, "req-0" saved into an empty list cannot be deleted: the delete finds nothing to remove |
| AppShortlist.SavedRowCounts | app.py:700-713 | once a request number is saved, the CSR row of a request stored under that number counts it as shortlisted |

## Left out

- Flask plumbing: routing, `jsonify`, `session`, `render_template`, `url_for` and the WTForms demo page. The reply code and body are kept, and the session is a parameter.
- The entities' private attributes (`self._requestTitle` and its siblings set in UserStory13_PIN_CreateRequest.py:79-84, `self._shortlistCount` in UserStory28_PIN_ViewShortlistCount.py:62-64, and the like in the other request stories) are not modelled: no caller reads them back, and every answer is computed from the records.
- JSON file persistence: `_ensure_file`, `load_*`/`save_*` and the temp-file rename. The loaded content is passed in and the saved content is returned.
- Password hashing: `generate_password_hash` and `check_password_hash` are a parameter. Only the plaintext branch of `verify_password` is modelled.
- The clock: every read of the current time is a parameter. A `now_iso()` call inside a loop gets the same stamp for every record of one call.
- Date parsing: `strptime`/`fromisoformat` are parameters. The weekly report gets a day number or nothing, and the update story gets a yes/no check of the YYYY-MM-DD and HH:MM formats.
- The `run()` command-line loops of the user-story modules, and the result printing of UserStory5_Admin_SearchAccount.py, are user interface.
- The logout modules (UserStory12_Admin_logout.py, UserStory26_CSR_Logout.py, UserStory42_PM_logout.py) only handle login flags or an external session manager.
- UserStory34_PM_viewSCategory.py only returns a copy of a fixed list.
- run_combined.py only wires the two services together.
- UserStory19, UserStory20, UserStory22, UserStory31 and UserStory32 are imported by the services but are not part of this model.
- Concurrency: the races between whole-file load, change and save cycles are outside the model.
- Text is ASCII. `strip`, `lower`, `upper` and `title` handle ASCII letters and whitespace only. `int(str)` does not accept underscores.
- Floats and nested dictionaries are not values of the model. Entries of the shortlist ledger and of the flat shortlist are taken to be strings. Stored categories are taken to be dictionaries.
- Python set order: the `Max_app.py` shortlist listing iterates a set, and the `app.py` shortlist delete writes a set back. The model states which entries they hold, not their order.
- AppShortlist.DeleteRoute: the written list is a set, so its order is not stated.
- MaxAppShortlist.GetOnlyMine: the order of the rows follows a Python set and is not stated; the contract says which rows appear (exactly those of the saved ids that resolve) and that there is at most one per id.
- WeeklyReport.SortUsers: states a permutation of the rows in order by (role, id), not the stability of Python's sort among rows with equal keys.
- AppUsers.SortById: states a permutation sorted by id, not stability among equal ids.
- AppCsrView.MapRowExact: the shown status of a row (the stored status, trimmed and title-cased) is not spelt out; the contract says when it raises.
- UserStory9_Admin_suspendUserProfile.py: the confirmation answer read from the user is a parameter.
- UserStory15_PIN_UpdateRequest.py changes the loaded record before a date or time check can fail. Nothing is saved on that path, so the change is not visible in the model.
- UserStory39_PM_weeklyReport.py: its docstring says a request is in the week when any of its stamps is, while the code reads only the first truthy stamp. The model follows the code (see WeeklyReport.StaleUpdateHidesRecentCreation).
- Other `app.py` routes are not part of this model. These are the login and account pages and the users API (app.py:163-475), the PM pages (app.py:476-540), the category list (app.py:578-587), the request-categories alias (app.py:658-660), the request list, create, update and delete API (app.py:732-826), and the CSR list, detail and shortlist-list routes (app.py:882-950). The row mapping and the search those CSR routes use are modelled.
- Other `Max_app.py` routes are not part of this model. These are register, login, logout and whoami (Max_app.py:316-415), the CSR request list and the two request searches (Max_app.py:417-512), the view-count and shortlist-count routes (Max_app.py:619-669), the completed-request details (Max_app.py:670-708), and the request create, detail, update, status and delete routes (Max_app.py:768-983). `_increment_view_count` is modelled, and so are the PIN list, search and detail, the per-CSR shortlist routes and the assign, unassign and complete routes.

## Findings

| source | as written | input that shows it | evidently intended | confidence | as-written member | corrected member |
|---|---|---|---|---|---|---|
| app.py:955 | the save route keys a request by `_req_id_to_string(_req_string_to_int(rid) or rid)`, so request number 0 is falsy and the path text is kept | saving "req-0" files "req-0", while the delete route looks for "REQ-0", so the entry can never be removed | key by the request number whenever the path reads as one, as the delete route does | not executed | AppShortlist.ZeroSaveStays | AppShortlist.SaveThenDelete |
| UserStory41_PM_login.py:16-18 | the login page calls `controller.processLogin`, which `LoginController` does not define, so every submission raises AttributeError | username "pm_admin" with password "admin123", which the controller accepts | call `controller.login` | not executed | PmLogin.PageAsWrittenRejectsValidLogin | PmLogin.PageLoginExact |
