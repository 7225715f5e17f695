/** The staff member's "Assigned Issues" table: the step-by-step status
    successor rule, the status-change request, the status and priority
    filters, and the "Finalized" cell of closed issues. */
module AssignedIssues {
  import opened Wrappers
  import opened Issues
  import JsArray

  /** The lifecycle, in order. */
  const Lifecycle: seq<Status> := [Pending, InProgress, Working, Resolved, Closed]

  /** `getNextStatusOptions(currentStatus)`: the statuses the staff member
      may move an issue to. */
  function NextStatusOptions(current: Option<Status>): (r: seq<Status>)
    ensures |r| <= 1
    ensures forall i :: 0 <= i < 4 ==> (current == Some(Lifecycle[i]) <==> r == [Lifecycle[i + 1]])
  {
    match current
    case Some(Pending) => [InProgress]
    case Some(InProgress) => [Working]
    case Some(Working) => [Resolved]
    case Some(Resolved) => [Closed]
    case _ => []
  }

  /** `closed`, a status the table does not know and a missing status have
      no successor; every other status has exactly one. */
  lemma TerminalStatuses(current: Option<Status>)
    ensures NextStatusOptions(current) == [] <==>
      current == None || current == Some(Closed) || current.value.OtherStatus?
  {
  }

  /** The position of a status in the lifecycle; statuses outside it rank
      after `closed`. */
  function Rank(s: Status): (k: nat)
    ensures k <= 5
    ensures k < 5 ==> Lifecycle[k] == s
  {
    match s
    case Pending => 0
    case InProgress => 1
    case Working => 2
    case Resolved => 3
    case Closed => 4
    case OtherStatus(_) => 5
  }

  /** Every offered successor is exactly one lifecycle step further on. */
  lemma SuccessorIsNextRank(s: Status, t: Status)
    requires t in NextStatusOptions(Some(s))
    ensures Rank(t) == Rank(s) + 1
  {
  }

  /** The status reached after following the only offered option `k`
      times, or `None` once an issue without successor is passed. */
  function Iterate(s: Status, k: nat): Option<Status>
    decreases k
  {
    if k == 0 then Some(s)
    else
      var opts := NextStatusOptions(Some(s));
      if opts == [] then None else Iterate(opts[0], k - 1)
  }

  /** Walking `k` steps raises the rank by exactly `k`. */
  lemma {:induction false} IterateRaisesRank(s: Status, k: nat)
    requires Iterate(s, k).Some?
    ensures Rank(Iterate(s, k).value) == Rank(s) + k
    decreases k
  {
    if k > 0 {
      var opts := NextStatusOptions(Some(s));
      SuccessorIsNextRank(s, opts[0]);
      IterateRaisesRank(opts[0], k - 1);
    }
  }

  /** No status is ever reached again: the successor relation has no
      cycle, so no step reverts an issue. */
  lemma NoRevisit(s: Status, k: nat)
    requires k >= 1
    ensures Iterate(s, k) != Some(s)
  {
    if Iterate(s, k).Some? {
      IterateRaisesRank(s, k);
    }
  }

  /** From `pending` the walk visits the lifecycle in order, reaches
      `closed` after exactly four steps and stops there. */
  lemma {:induction false} WalkFromPending(k: nat)
    ensures k <= 4 ==> Iterate(Pending, k) == Some(Lifecycle[k])
    ensures k > 4 ==> Iterate(Pending, k) == None
  {
    assert Iterate(Closed, 1) == None;
    assert Iterate(Resolved, 1) == Some(Closed);
    assert Iterate(Working, 2) == Some(Closed);
    assert Iterate(InProgress, 3) == Some(Closed);
    if k > 4 {
      ClosedStaysStopped(k - 4);
      assert Iterate(Resolved, k - 3) == Iterate(Closed, k - 4);
      assert Iterate(Working, k - 2) == Iterate(Resolved, k - 3);
      assert Iterate(InProgress, k - 1) == Iterate(Working, k - 2);
    }
  }

  lemma ClosedStaysStopped(k: nat)
    requires k >= 1
    ensures Iterate(Closed, k) == None
  {
  }

  /** The body of the `update-status` request. */
  datatype StatusUpdate = StatusUpdate(issueId: string, newStatus: string, message: string)

  /** A value interpolated into a template literal: a missing status prints
      as `undefined`. */
  function Interpolate(s: Option<Status>): string {
    match s
    case None => "undefined"
    case Some(st) => StatusName(st)
  }

  /** `handleStatusChange(id, currentStatus, newStatus)`: an empty selection
      sends nothing; otherwise one request carrying the new status and the
      message "Staff changed status from <current> to <new>". */
  function StatusChange(id: string, current: Option<Status>, newStatus: string): (r: Option<StatusUpdate>)
    ensures r.None? <==> newStatus == ""
    ensures r.Some? ==> r.value.issueId == id && r.value.newStatus == newStatus
    ensures r.Some? ==>
      r.value.message == "Staff changed status from " + Interpolate(current) + " to " + newStatus
  {
    if newStatus == "" then None
    else Some(StatusUpdate(id, newStatus,
      "Staff changed status from " + Interpolate(current) + " to " + newStatus))
  }

  /** The "Update Status" cell of one row. */
  datatype StatusControl = Finalized | ChangeSelect(options: seq<string>)

  function ControlFor(status: Option<Status>): (c: StatusControl)
    ensures c.Finalized? <==> status == Some(Closed)
  {
    if status == Some(Closed) then Finalized
    else ChangeSelect(seq(|NextStatusOptions(status)|, i requires 0 <= i < |NextStatusOptions(status)| => StatusName(NextStatusOptions(status)[i])))
  }

  /** Whatever option of the select a staff member picks, the request it
      sends moves the issue exactly one step along the lifecycle, and the
      message names the status it leaves and the one it enters. */
  lemma {:induction false} SelectOnlyAdvances(id: string, status: Option<Status>, choice: string)
    requires ControlFor(status).ChangeSelect?
    requires choice in ControlFor(status).options
    ensures status.Some? && status.value != Closed
    ensures var u := StatusChange(id, status, choice);
      u.Some? && Rank(ParseStatus(u.value.newStatus)) == Rank(status.value) + 1
      && u.value.message == "Staff changed status from " + StatusName(status.value) + " to " + choice
  {
    var opts := NextStatusOptions(status);
    assert |opts| == 1 && choice == StatusName(opts[0]);
    StatusRoundTrip(opts[0], choice);
    SuccessorIsNextRank(status.value, opts[0]);
  }

  /** `filterStatus === "all" || issue.status === filterStatus`, and the
      same for the priority. */
  predicate MatchesFilters(issue: Issue, filterStatus: string, filterPriority: string) {
    && (filterStatus == "all" || StatusKey(issue.status) == Some(filterStatus))
    && (filterPriority == "all" ||
        (issue.priority.Some? && PriorityName(issue.priority.value) == filterPriority))
  }

  /** `filteredIssues`: the issues matching both filters, in table order;
      with both filters at `all`, every issue. */
  function FilteredIssues(issues: seq<Issue>, filterStatus: string, filterPriority: string): (r: seq<Issue>)
    ensures JsArray.IsSubsequence(r, issues)
    ensures forall x :: x in r <==> x in issues && MatchesFilters(x, filterStatus, filterPriority)
    ensures forall x :: multiset(r)[x] == if MatchesFilters(x, filterStatus, filterPriority) then multiset(issues)[x] else 0
    ensures filterStatus == "all" && filterPriority == "all" ==> r == issues
  {
    var keep := (x: Issue) => MatchesFilters(x, filterStatus, filterPriority);
    JsArray.FilterIsSubsequence(issues, keep);
    JsArray.FilterKeepsAll(issues, keep);
    forall x ensures x in JsArray.Filter(issues, keep) <==> x in issues && keep(x) {
      JsArray.FilterMembership(issues, keep, x);
    }
    forall x ensures multiset(JsArray.Filter(issues, keep))[x] == if keep(x) then multiset(issues)[x] else 0 {
      JsArray.FilterCounts(issues, keep, x);
    }
    JsArray.Filter(issues, keep)
  }
}
