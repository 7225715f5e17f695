/** The administrator's "All Issues" page: search and status filter, the
    statistics cards, the assign/reject actions and the badges. */
module AdminAllIssues {
  import opened Wrappers
  import opened Issues
  import JsText
  import JsArray
  import AssignedIssues

  /** `field?.toLowerCase().includes(term.toLowerCase())`: a missing field
      yields `undefined`, which is falsy. */
  predicate FieldContains(field: Option<string>, term: string) {
    field.Some? && JsText.Includes(JsText.ToLower(field.value), JsText.ToLower(term))
  }

  predicate MatchesSearch(issue: Issue, searchTerm: string) {
    FieldContains(issue.title, searchTerm) || FieldContains(issue.category, searchTerm)
  }

  predicate MatchesStatus(issue: Issue, filterStatus: string) {
    filterStatus == "all" || StatusKey(issue.status) == Some(filterStatus)
  }

  predicate Kept(issue: Issue, searchTerm: string, filterStatus: string) {
    MatchesSearch(issue, searchTerm) && MatchesStatus(issue, filterStatus)
  }

  /** `filteredIssues`: the issues whose title or category contains the
      search term (ignoring case) and whose status passes the filter, in
      their original order. */
  function FilteredIssues(issues: seq<Issue>, searchTerm: string, filterStatus: string): (r: seq<Issue>)
    ensures |r| <= |issues|
    ensures JsArray.IsSubsequence(r, issues)
    ensures forall x :: x in r <==> x in issues && Kept(x, searchTerm, filterStatus)
    ensures forall x :: multiset(r)[x] == if Kept(x, searchTerm, filterStatus) then multiset(issues)[x] else 0
  {
    var keep := (x: Issue) => Kept(x, searchTerm, filterStatus);
    JsArray.FilterIsSubsequence(issues, keep);
    forall x ensures x in JsArray.Filter(issues, keep) <==> x in issues && keep(x) {
      JsArray.FilterMembership(issues, keep, x);
    }
    forall x ensures multiset(JsArray.Filter(issues, keep))[x] == if keep(x) then multiset(issues)[x] else 0 {
      JsArray.FilterCounts(issues, keep, x);
    }
    JsArray.Filter(issues, keep)
  }

  /** An issue with neither title nor category is never shown, not even
      for an empty search term. */
  lemma UntitledNeverKept(issues: seq<Issue>, searchTerm: string, filterStatus: string, x: Issue)
    requires x.title.None? && x.category.None?
    ensures x !in FilteredIssues(issues, searchTerm, filterStatus)
  {
  }

  /** With an empty search term and the filter at `all`, exactly the issues
      that have a title or a category are shown. */
  lemma {:induction false} EmptySearchKeepsDescribed(issues: seq<Issue>, x: Issue)
    ensures x in FilteredIssues(issues, "", "all") <==>
      x in issues && (x.title.Some? || x.category.Some?)
  {
    assert JsText.ToLower("") == "";
  }

  /** Search ignores case in the term: searching for a term and for its
      lower-case form show the same issues. */
  lemma SearchIgnoresTermCase(issues: seq<Issue>, searchTerm: string, filterStatus: string)
    ensures FilteredIssues(issues, searchTerm, filterStatus)
         == FilteredIssues(issues, JsText.ToLower(searchTerm), filterStatus)
  {
    JsText.ToLowerIdempotent(searchTerm);
    var p := (x: Issue) => Kept(x, searchTerm, filterStatus);
    var q := (x: Issue) => Kept(x, JsText.ToLower(searchTerm), filterStatus);
    JsArray.FilterCongruent(issues, p, q);
  }

  datatype Stats = Stats(total: nat, pending: nat, inProgress: nat, resolved: nat, boosted: nat)

  predicate IsPending(i: Issue) { i.status == Some(Pending) }
  predicate IsInProgress(i: Issue) { i.status == Some(InProgress) }
  predicate IsResolved(i: Issue) { i.status == Some(Resolved) }
  predicate IsBoosted(i: Issue) { i.isBoosted }

  /** `stats`: the number of issues, of pending, in-progress and resolved
      issues, and of boosted issues; the three status counts never add up
      to more than the total. */
  function ComputeStats(issues: seq<Issue>): (r: Stats)
    ensures r.total == |issues|
    ensures r.pending + r.inProgress + r.resolved <= r.total
    ensures r.boosted <= r.total
    ensures r.pending == |JsArray.Filter(issues, IsPending)|
    ensures r.inProgress == |JsArray.Filter(issues, IsInProgress)|
    ensures r.resolved == |JsArray.Filter(issues, IsResolved)|
    ensures r.boosted == |JsArray.Filter(issues, IsBoosted)|
  {
    JsArray.ExclusiveCountsBounded(issues, IsPending, IsInProgress, IsResolved);
    Stats(|issues|,
      |JsArray.Filter(issues, IsPending)|,
      |JsArray.Filter(issues, IsInProgress)|,
      |JsArray.Filter(issues, IsResolved)|,
      |JsArray.Filter(issues, IsBoosted)|)
  }

  /** "Showing N of M issues": the line appears only when something is
      shown, and N never exceeds M. */
  function ResultsCount(issues: seq<Issue>, searchTerm: string, filterStatus: string): (r: Option<(nat, nat)>)
    ensures r.Some? <==> FilteredIssues(issues, searchTerm, filterStatus) != []
    ensures r.Some? ==> 0 < r.value.0 <= r.value.1 == |issues|
  {
    var shown := FilteredIssues(issues, searchTerm, filterStatus);
    if |shown| > 0 then Some((|shown|, |issues|)) else None
  }

  /** The text under "No Issues Found". */
  function EmptyStateText(searchTerm: string): (t: string)
    ensures searchTerm != "" <==> t == "Try adjusting your search criteria"
  {
    if searchTerm != "" then "Try adjusting your search criteria" else "No issues match the selected filter"
  }

  /** The actions offered on one row of the table. */
  datatype RowActions = RowActions(assign: bool, reject: bool)

  /** "Assign Staff" appears only while no staff member is assigned, the
      reject button only while the issue is pending. */
  function ActionsFor(issue: Issue): (a: RowActions)
    ensures a.assign <==> issue.assignedStaff.None?
    ensures a.reject <==> issue.status == Some(Pending)
  {
    RowActions(issue.assignedStaff.None?, issue.status == Some(Pending))
  }

  /** Once a staff member has moved an issue along the lifecycle, the
      administrator can no longer reject it. */
  lemma {:induction false} NoRejectAfterProgress(issue: Issue, k: nat)
    requires k >= 1 && issue.status.Some? && AssignedIssues.Iterate(Pending, k) == issue.status
    ensures !ActionsFor(issue).reject
  {
    AssignedIssues.NoRevisit(Pending, k);
  }

  /** `<StatusBadge status={issue.status} />`: the status string selects
      its entry as it is, without lower-casing; anything else is pending. */
  function AdminStatusBadge(status: Option<Status>): (b: StatusBadge)
    ensures forall e: StatusBadge :: status.Some? && StatusName(status.value) == StatusBadgeKey(e) ==> b == e
    ensures b != PendingBadge ==> status.Some? && StatusName(status.value) == StatusBadgeKey(b)
  {
    StatusBadgeFor(StatusKey(status))
  }

  /** `<PriorityBadge priority={issue.priority} />`: the lower-cased
      priority string selects its entry; anything else is low. */
  function AdminPriorityBadge(priority: Option<Priority>): (b: PriorityBadge)
    ensures forall e: PriorityBadge ::
      priority.Some? && JsText.ToLower(PriorityName(priority.value)) == PriorityBadgeKey(e) ==> b == e
    ensures b != LowBadge ==>
      priority.Some? && JsText.ToLower(PriorityName(priority.value)) == PriorityBadgeKey(b)
  {
    PriorityBadgeFor(LowerPriorityKey(priority))
  }

  /** The status badge names `pending`, `in-progress` and `resolved`
      faithfully; every other status, `working` and `closed` included, is
      shown with the `Pending` badge. */
  lemma {:induction false} AdminStatusBadgeSpec(status: Option<Status>)
    ensures AdminStatusBadge(status) ==
      if status == Some(InProgress) then InProgressBadge
      else if status == Some(Resolved) then ResolvedBadge
      else PendingBadge
  {
    if status.Some? && status.value.OtherStatus? {
      assert StatusName(status.value) != "in-progress" && StatusName(status.value) != "resolved";
    }
  }

  /** The priority badge ignores case: `HIGH` is shown as `High`; anything
      that is not low, medium or high in some case is shown as `Low`. */
  lemma {:induction false} AdminPriorityBadgeSpec(p: Priority)
    ensures AdminPriorityBadge(Some(p)) == PriorityBadgeFor(Some(JsText.ToLower(PriorityName(p))))
    ensures p == High ==> AdminPriorityBadge(Some(p)) == HighBadge
    ensures p == Medium ==> AdminPriorityBadge(Some(p)) == MediumBadge
    ensures AdminPriorityBadge(None) == LowBadge
  {
    assert JsText.ToLower("high") == "high";
    assert JsText.ToLower("medium") == "medium";
  }
}
