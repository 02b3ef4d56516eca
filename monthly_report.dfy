/**
 * The monthly platform report (UserStory40): the same shape as the daily
 * one over a larger seed, accepting only the 'monthly' option.
 */
module MonthlyReport {
  import opened PyValue
  import opened Seqs
  import opened Report

  datatype SeedCategory = SeedCategory(categoryId: int, categoryName: string)
  datatype SeedUser = SeedUser(userProfileId: int, userProfileName: string, userRole: string, userProfileStatus: string)

  /** `Category.generateReport`: a copy of the seeded categories. */
  function Categories(): seq<SeedCategory> {
    [SeedCategory(1, "Healthcare"), SeedCategory(2, "Education"), SeedCategory(3, "Transport"),
     SeedCategory(4, "Food Assistance")]
  }

  /** `UserProfile.generateReport`: a copy of the seeded profiles. */
  function UserProfiles(): seq<SeedUser> {
    [SeedUser(1, "Alice", "CSR", "Active"), SeedUser(2, "Bob", "PIN", "Active"),
     SeedUser(3, "Clara", "CSR", "Inactive"), SeedUser(4, "Daniel", "Admin", "Active"),
     SeedUser(5, "Emma", "CSR", "Active")]
  }

  /** The seeded requests of the monthly `Request` entity, with the fields the report reads. */
  function Requests(): seq<SeedRequest> {
    [SeedRequest(1, "Healthcare Outreach", "Healthcare", "Pending", "2025-11-01"),
     SeedRequest(2, "Food Drive Expansion", "Food Assistance", "Assigned", "2025-11-10"),
     SeedRequest(3, "Transport Aid Program", "Transport", "Completed", "2025-11-18"),
     SeedRequest(4, "School Tutoring Drive", "Education", "Completed", "2025-11-25")]
  }

  /** The seeded requests fall one, one and two into the three buckets. */
  lemma SeedBuckets()
    ensures |Bucket(Requests(), "Pending")| == 1
    ensures |Bucket(Requests(), "Assigned")| == 1
    ensures |Bucket(Requests(), "Completed")| == 2
  {
    var r := Requests();
    BucketOfFour(r[0], r[1], r[2], r[3], "Pending");
    BucketOfFour(r[0], r[1], r[2], r[3], "Assigned");
    BucketOfFour(r[0], r[1], r[2], r[3], "Completed");
  }

  /** `GenerateReportController.generateReport`; the date option does not change the counts. */
  method GenerateReport(dateOption: string) returns (text: string)
    ensures text == ReportText("monthly", 4, 5, 1, 1, 2)
  {
    var cats := Categories();
    var users := UserProfiles();
    var pending, assignedList, completed := Buckets(Requests());
    SeedBuckets();
    text := ReportText("monthly", |cats|, |users|, |pending|, |assignedList|, |completed|);
  }

  /** `GenerateReportPage.submitGenerateReport`: any option other than 'monthly' is refused. */
  method SubmitGenerateReport(dateOption: string) returns (text: string)
    ensures Lower(Strip(dateOption)) != "monthly" ==> text == "error message"
    ensures Lower(Strip(dateOption)) == "monthly" ==> text == ReportText("monthly", 4, 5, 1, 1, 2)
  {
    if Lower(Strip(dateOption)) != "monthly" {
      return "error message";
    }
    text := GenerateReport(dateOption);
  }
}
