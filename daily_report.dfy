/**
 * The daily platform report (UserStory38): the category, user profile and
 * request entities hold seeded lists, the controller counts them and the
 * page accepts only the 'daily' option.
 */
module DailyReport {
  import opened PyValue
  import opened Seqs
  import opened Report

  datatype SeedCategory = SeedCategory(categoryId: int, categoryName: string)
  datatype SeedUser = SeedUser(userProfileId: int, userProfileName: string, userRole: string, userProfileStatus: string)

  /** `Category.generateReport`: a copy of the seeded categories. */
  function Categories(): seq<SeedCategory> {
    [SeedCategory(1, "Healthcare"), SeedCategory(2, "Education"), SeedCategory(3, "Transport")]
  }

  /** `UserProfile.generateReport`: a copy of the seeded profiles. */
  function UserProfiles(): seq<SeedUser> {
    [SeedUser(1, "Alice", "CSR", "Active"), SeedUser(2, "Bob", "PIN", "Active"),
     SeedUser(3, "Charlie", "CSR", "Inactive")]
  }

  /** The seeded requests of the daily `Request` entity. */
  function Requests(): seq<SeedRequest> {
    [SeedRequest(1, "Medical Aid", "Healthcare", "Pending", "2025-11-09"),
     SeedRequest(2, "Transport Help", "Transport", "Assigned", "2025-11-09"),
     SeedRequest(3, "Education Support", "Education", "Completed", "2025-11-09"),
     SeedRequest(4, "Wheelchair", "Healthcare", "Pending", "2025-11-09")]
  }

  /** The seeded requests fall two, one and one into the three buckets. */
  lemma SeedBuckets()
    ensures |Bucket(Requests(), "Pending")| == 2
    ensures |Bucket(Requests(), "Assigned")| == 1
    ensures |Bucket(Requests(), "Completed")| == 1
  {
    var r := Requests();
    BucketOfFour(r[0], r[1], r[2], r[3], "Pending");
    BucketOfFour(r[0], r[1], r[2], r[3], "Assigned");
    BucketOfFour(r[0], r[1], r[2], r[3], "Completed");
  }

  /** `GenerateReportController.generateReport`; the date option does not change the counts. */
  method GenerateReport(dateOption: string) returns (text: string)
    ensures text == ReportText("daily", 3, 3, 2, 1, 1)
  {
    var cats := Categories();
    var users := UserProfiles();
    var pending, assignedList, completed := Buckets(Requests());
    SeedBuckets();
    text := ReportText("daily", |cats|, |users|, |pending|, |assignedList|, |completed|);
  }

  /** `GenerateReportPage.submitGenerateReport`: any option other than 'daily' is refused. */
  method SubmitGenerateReport(dateOption: string) returns (text: string)
    ensures Lower(Strip(dateOption)) != "daily" ==> text == "error message"
    ensures Lower(Strip(dateOption)) == "daily" ==> text == ReportText("daily", 3, 3, 2, 1, 1)
  {
    if Lower(Strip(dateOption)) != "daily" {
      return "error message";
    }
    text := GenerateReport(dateOption);
  }
}
