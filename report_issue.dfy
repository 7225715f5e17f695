/** The citizen's "Report an Issue" page: the free-tier quota, the record
    built from the form, and submission only after a successful image
    upload. */
module ReportIssue {
  import opened Wrappers
  import opened Issues
  import AssignedIssues
  import AdminAllIssues
  import AllIssues
  import AllIssuesDetails
  import MyIssues

  /** The free tier's lifetime limit on reported issues. */
  const FreeLimit: int := 3

  /** `stats?.totalSubmitted || 0` */
  function TotalIssues(totalSubmitted: Option<int>): int {
    totalSubmitted.GetOr(0)
  }

  /** `isLimitReached`: a user whose role is not `premium` has reported
      three issues or more. */
  function IsLimitReached(role: Option<string>, totalSubmitted: Option<int>): (r: bool)
    ensures r <==> role != Some("premium") && totalSubmitted.Some? && totalSubmitted.value >= FreeLimit
  {
    var isPremium := role == Some("premium");
    !isPremium && TotalIssues(totalSubmitted) >= FreeLimit
  }

  /** Reporting more never lifts the limit, and becoming premium always
      does. */
  lemma LimitMonotone(role: Option<string>, n: int, m: int)
    requires n <= m && IsLimitReached(role, Some(n))
    ensures IsLimitReached(role, Some(m))
    ensures !IsLimitReached(Some("premium"), Some(m))
  {
  }

  /** What the page shows once the statistics have loaded. */
  datatype Page = LimitNotice(reported: int) | ReportForm

  function PageFor(role: Option<string>, totalSubmitted: Option<int>): (p: Page)
    ensures p.ReportForm? <==> !IsLimitReached(role, totalSubmitted)
    ensures p.LimitNotice? ==> p.reported >= FreeLimit
  {
    if IsLimitReached(role, totalSubmitted) then LimitNotice(TotalIssues(totalSubmitted)) else ReportForm
  }

  datatype FormValues = FormValues(title: string, description: string, category: string, location: string)

  /** The image host's answer; `UploadFailed` is a rejected request. */
  datatype UploadResult = UploadResponse(success: bool, displayUrl: string) | UploadFailed

  /** `issueData`, the record posted to the server. */
  datatype NewIssue = NewIssue(
    title: string,
    description: string,
    category: string,
    image: string,
    location: string,
    userEmail: Option<string>,
    userName: Option<string>,
    status: Status,
    createdAt: int,
    timeline: seq<TimelineEntry>)

  const ReportedMessage: string := "Issue reported by citizen."

  /** `handleSubmit`: an issue is posted only when the upload answered with
      success; it copies the form, carries the uploaded image's URL and the
      reporter, starts `pending`, and its timeline holds the one entry
      "Issue reported by citizen." The clock reading `now` is a parameter. */
  function Submission(form: FormValues, user: Option<AuthUser>, upload: UploadResult, now: int): (r: Option<NewIssue>)
    ensures r.Some? <==> upload.UploadResponse? && upload.success
    ensures r.Some? ==> var n := r.value;
      && n.title == form.title && n.description == form.description
      && n.category == form.category && n.location == form.location
      && n.image == upload.displayUrl
      && n.userEmail == UserEmail(user) && n.userName == UserName(user)
      && n.status == Pending
      && |n.timeline| == 1 && n.timeline[0].status == Some(Pending)
      && n.timeline[0].message == ReportedMessage
  {
    match upload
    case UploadResponse(true, url) =>
      Some(NewIssue(form.title, form.description, form.category, url, form.location,
        UserEmail(user), UserName(user), Pending, now,
        [TimelineEntry(Some(Pending), ReportedMessage, now, None)]))
    case _ => None
  }

  /** The issue as the server stores it under `id`, before anyone has
      acted on it. */
  function Stored(n: NewIssue, id: string): Issue {
    Issue(id, Some(n.title), Some(n.category), Some(n.description), Some(n.location),
      Some(n.status), None, n.userEmail, false, None, None, None, Some(n.timeline))
  }

  /** What the other pages offer on an issue just reported: the staff
      member's only move is to `in-progress`; the administrator may assign
      and reject it; the reporter may edit, delete and boost it, and cannot
      upvote it; its timeline shows the one "reported" entry. */
  lemma {:induction false} FreshIssueWorkflow(form: FormValues, user: Option<AuthUser>, upload: UploadResult, now: int, id: string)
    requires user.Some? && upload.UploadResponse? && upload.success
    ensures Submission(form, user, upload, now).Some?
    ensures var i := Stored(Submission(form, user, upload, now).value, id);
      && AssignedIssues.NextStatusOptions(i.status) == [InProgress]
      && AdminAllIssues.ActionsFor(i) == AdminAllIssues.RowActions(true, true)
      && MyIssues.ActionsFor(i) == MyIssues.RowActions(true, true)
      && AllIssuesDetails.ActionsFor(user, i) == AllIssuesDetails.OwnerActions(true, true, true)
      && AllIssues.Upvote(user, i.userEmail) == AllIssues.RefuseOwnIssue
      && AllIssuesDetails.TimelineFor(i).Entries?
      && AllIssuesDetails.TimelineFor(i).entries == i.timeline.value
  {
    var i := Stored(Submission(form, user, upload, now).value, id);
    assert |i.timeline.value| == 1;
    assert AllIssuesDetails.TimelineFor(i).entries[0] == i.timeline.value[0];
  }
}
