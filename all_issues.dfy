/** The public "Browse Issues" page: the upvote guards, the issue card and
    the empty-state text. The search and filters themselves are sent to
    the server as query parameters and are applied there. */
module AllIssues {
  import opened Wrappers
  import opened Issues
  import JsText
  import AdminAllIssues

  /** What a click on the upvote button does. */
  datatype UpvoteOutcome = RedirectToLogin | RefuseOwnIssue | SendUpvote

  /** `handleUpvote(id, issueEmail)`: nobody signed in is sent to the login
      page; a user upvoting an issue reported under their own email is
      refused; only otherwise is the upvote request sent. */
  function Upvote(user: Option<AuthUser>, issueEmail: Option<string>): (r: UpvoteOutcome)
    ensures r == RedirectToLogin <==> user.None?
    ensures r == RefuseOwnIssue <==> user.Some? && user.value.email == issueEmail
    ensures r == SendUpvote <==> user.Some? && user.value.email != issueEmail
  {
    if user.None? then RedirectToLogin
    else if user.value.email == issueEmail then RefuseOwnIssue
    else SendUpvote
  }

  /** A reporter's click on their own card never reaches the server, and
      neither does a click from a visitor who is not signed in. */
  lemma NoSelfUpvote(user: Option<AuthUser>, issue: Issue)
    requires UserEmail(user) == issue.userEmail || user.None?
    ensures Upvote(user, issue.userEmail) != SendUpvote
  {
  }

  /** `issue.upvotedBy?.includes(user?.email)`: the list holds emails only,
      so a user without an email has never upvoted. */
  function HasUpvoted(user: Option<AuthUser>, upvotedBy: Option<seq<string>>): (r: bool)
    ensures r <==> upvotedBy.Some? && UserEmail(user).Some? && UserEmail(user).value in upvotedBy.value
  {
    match upvotedBy
    case None => false
    case Some(list) =>
      var email := UserEmail(user);
      email.Some? && email.value in list
  }

  /** One card of the grid. */
  datatype Card = Card(status: StatusBadge, priority: PriorityBadge, upvoted: bool, upvotes: int, boosted: bool)

  /** `IssueCard`: status and priority are lower-cased before the lookup
      and fall back to `pending` and `low`; a missing upvote count shows
      as 0. */
  function CardFor(issue: Issue, user: Option<AuthUser>): (c: Card)
    ensures c.status == StatusBadgeFor(LowerStatusKey(issue.status))
    ensures c.priority == PriorityBadgeFor(LowerPriorityKey(issue.priority))
    ensures c.upvoted == HasUpvoted(user, issue.upvotedBy)
    ensures c.upvotes == if issue.upvotes.Some? then issue.upvotes.value else 0
    ensures c.boosted == issue.isBoosted
  {
    Card(StatusBadgeFor(LowerStatusKey(issue.status)),
      PriorityBadgeFor(LowerPriorityKey(issue.priority)),
      HasUpvoted(user, issue.upvotedBy),
      issue.upvotes.GetOr(0),
      issue.isBoosted)
  }

  /** The card and the administrator's table show the same status badge
      for every status whose string is already lower case; a status such as
      `Resolved` is recognised only by the card. */
  lemma {:induction false} CardAgreesWithAdminOnLowerCase(issue: Issue, user: Option<AuthUser>)
    requires issue.status.Some? && JsText.IsLower(StatusName(issue.status.value))
    ensures CardFor(issue, user).status == AdminAllIssues.AdminStatusBadge(issue.status)
  {
    JsText.ToLowerOfLower(StatusName(issue.status.value));
  }

  /** A status string that is not one of the known names but lower-cases
      to a key of the table other than `pending` (`Resolved`,
      `IN-PROGRESS`, ...) gets that key's badge on the card and the
      `Pending` badge in the administrator's table. */
  lemma CardRecognisesMiscasedStatus(user: Option<AuthUser>, issue: Issue, e: StatusBadge)
    requires issue.status.Some? && issue.status.value.OtherStatus?
    requires e != PendingBadge && JsText.ToLower(issue.status.value.name) == StatusBadgeKey(e)
    ensures CardFor(issue, user).status == e
    ensures AdminAllIssues.AdminStatusBadge(issue.status) == PendingBadge
  {
    var n := issue.status.value.name;
    assert LowerStatusKey(issue.status) == Some(StatusBadgeKey(e));
    assert CardFor(issue, user).status == StatusBadgeFor(Some(StatusBadgeKey(e)));
    var b := AdminAllIssues.AdminStatusBadge(issue.status);
    assert StatusName(issue.status.value) == n && !IsKnownStatusName(n);
    assert b != PendingBadge ==> IsKnownStatusName(StatusBadgeKey(b));
  }

  /** The instance `Resolved`. */
  lemma CardRecognisesCapitalisedStatus(user: Option<AuthUser>, issue: Issue)
    requires issue.status == Some(OtherStatus("Resolved"))
    ensures CardFor(issue, user).status == ResolvedBadge
    ensures AdminAllIssues.AdminStatusBadge(issue.status) == PendingBadge
  {
    LowerOfResolved();
    assert issue.status.value.name == "Resolved";
    assert StatusBadgeKey(ResolvedBadge) == "resolved";
    CardRecognisesMiscasedStatus(user, issue, ResolvedBadge);
  }

  lemma LowerOfResolved()
    ensures JsText.ToLower("Resolved") == "resolved"
  {
    var name := "Resolved";
    var lower := JsText.ToLower(name);
    assert |lower| == 8;
    assert lower[0] == JsText.LowerChar('R') == 'r';
    assert lower[1] == JsText.LowerChar('e') == 'e';
    assert lower[2] == JsText.LowerChar('s') == 's';
    assert lower[3] == JsText.LowerChar('o') == 'o';
    assert lower[4] == JsText.LowerChar('l') == 'l';
    assert lower[5] == JsText.LowerChar('v') == 'v';
    assert lower[6] == JsText.LowerChar('e') == 'e';
    assert lower[7] == JsText.LowerChar('d') == 'd';
  }

  /** The text under "No Issues Found": a hint to adjust the filters when
      a search, a category or a status is set. */
  function EmptyStateText(search: string, category: string, status: string, priority: string): (t: string)
    ensures t == "Try adjusting your search or filters" <==>
      search != "" || category != "all" || status != "all"
  {
    if search != "" || category != "all" || status != "all"
    then "Try adjusting your search or filters"
    else "No issues have been reported yet"
  }

  /** The priority filter plays no part in the choice of the text. */
  lemma EmptyStateIgnoresPriority(search: string, category: string, status: string, p: string, q: string)
    ensures EmptyStateText(search, category, status, p) == EmptyStateText(search, category, status, q)
  {
  }

  /** "Showing N issue(s)": the `s` is dropped only for exactly one. */
  function PluralSuffix(n: nat): (s: string)
    ensures s == "" <==> n == 1
  {
    if n != 1 then "s" else ""
  }
}
