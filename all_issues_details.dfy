/** The issue details page: who owns the issue, which of edit, delete and
    boost the viewer is offered, the newest-first timeline and the status
    label. */
module AllIssuesDetails {
  import opened Wrappers
  import opened Issues
  import JsText
  import JsArray

  /** `isOwner = user?.email === issue.userEmail` */
  function IsOwner(user: Option<AuthUser>, issue: Issue): (r: bool)
    ensures UserEmail(user).Some? ==> (r <==> issue.userEmail == UserEmail(user))
    ensures UserEmail(user).None? ==> (r <==> issue.userEmail.None?)
  {
    UserEmail(user) == issue.userEmail
  }

  /** `undefined === undefined`: a visitor who is not signed in counts as
      the owner of an issue recorded without an email. */
  lemma AnonymousOwnsEmaillessIssue(issue: Issue)
    requires issue.userEmail.None?
    ensures IsOwner(None, issue)
  {
  }

  datatype OwnerActions = OwnerActions(edit: bool, delete: bool, boost: bool)

  /** The buttons under the description: only the owner sees any; edit
      only while the issue is pending, boost only while it is not boosted,
      delete in every status. */
  function ActionsFor(user: Option<AuthUser>, issue: Issue): (a: OwnerActions)
    ensures !IsOwner(user, issue) ==> a == OwnerActions(false, false, false)
    ensures a.edit <==> IsOwner(user, issue) && issue.status == Some(Pending)
    ensures a.delete <==> IsOwner(user, issue)
    ensures a.boost <==> IsOwner(user, issue) && !issue.isBoosted
  {
    if IsOwner(user, issue)
    then OwnerActions(issue.status == Some(Pending), true, !issue.isBoosted)
    else OwnerActions(false, false, false)
  }

  /** Boosting is offered at most once: after a boost has been recorded no
      viewer is offered it again, whatever the status. */
  lemma BoostOfferedOnce(user: Option<AuthUser>, issue: Issue)
    ensures !ActionsFor(user, issue.(isBoosted := true)).boost
    ensures ActionsFor(user, issue.(isBoosted := true)).delete == ActionsFor(user, issue).delete
  {
  }

  /** What the boost confirmation leads to. `Modified(n)` is the server's
      `modifiedCount`; `RequestFailed` a rejected request. */
  datatype BoostResponse = Modified(count: int) | RequestFailed
  datatype BoostOutcome = BoostedShown | NothingShown | ErrorShown

  function BoostOutcomeFor(response: BoostResponse): (o: BoostOutcome)
    ensures o == BoostedShown <==> response.Modified? && response.count > 0
    ensures o == ErrorShown <==> response.RequestFailed?
  {
    match response
    case Modified(n) => if n > 0 then BoostedShown else NothingShown
    case RequestFailed => ErrorShown
  }

  /** The timeline sidebar. */
  datatype TimelinePanel = NoUpdates | Entries(entries: seq<TimelineEntry>)

  /** `issue.timeline.slice().reverse()`: newest entry first; an absent or
      empty timeline shows "No timeline updates yet". */
  function TimelineFor(issue: Issue): (p: TimelinePanel)
    ensures p.NoUpdates? <==> issue.timeline.None? || issue.timeline.value == []
    ensures p.Entries? ==> |p.entries| == |issue.timeline.value|
    ensures p.Entries? ==> forall k :: 0 <= k < |p.entries| ==>
      p.entries[k] == issue.timeline.value[|issue.timeline.value| - 1 - k]
  {
    if issue.timeline.None? || issue.timeline.value == [] then NoUpdates
    else
      var t := issue.timeline.value;
      forall k | 0 <= k < |t| ensures JsArray.Reverse(t)[k] == t[|t| - 1 - k] {
        JsArray.ReverseAt(t, k);
      }
      Entries(JsArray.Reverse(t))
  }

  /** The first entry shown (index 0, the only one drawn highlighted) is
      the last one appended; appending an entry puts it at the top and shifts the
      rest down by one. */
  lemma {:induction false} NewestFirst(issue: Issue, e: TimelineEntry)
    requires issue.timeline.Some? && issue.timeline.value != []
    ensures TimelineFor(issue).entries[0] == issue.timeline.value[|issue.timeline.value| - 1]
    ensures var later := issue.(timeline := Some(issue.timeline.value + [e]));
      TimelineFor(later) == Entries([e] + TimelineFor(issue).entries)
  {
    var t := issue.timeline.value;
    var later := issue.(timeline := Some(t + [e]));
    var shown := TimelineFor(later).entries;
    var before := TimelineFor(issue).entries;
    assert |shown| == |[e] + before|;
    forall k | 0 <= k < |shown| ensures shown[k] == ([e] + before)[k] {
      if k > 0 {
        assert shown[k] == (t + [e])[|t| - k];
      }
    }
  }

  /** `status?.replace('-', ' ')`: the first dash becomes a space. */
  function StatusLabel(status: Option<Status>): (r: Option<string>)
    ensures r.Some? <==> status.Some?
    ensures r.Some? ==> |r.value| == |StatusName(status.value)|
  {
    match status
    case None => None
    case Some(s) => Some(JsText.ReplaceFirstDash(StatusName(s)))
  }

  /** The label of `in-progress` is `in progress`; a name without a dash,
      such as the other lifecycle names, is shown as it is. */
  lemma {:induction false} StatusLabels(s: Status)
    ensures StatusLabel(Some(InProgress)) == Some("in progress")
    ensures (forall i :: 0 <= i < |StatusName(s)| ==> StatusName(s)[i] != '-') ==>
      StatusLabel(Some(s)) == Some(StatusName(s))
  {
    var n := "in-progress";
    assert n[0] != '-' && n[1] != '-' && n[2] == '-';
    assert JsText.FirstDash(n) == 2;
    JsText.ReplaceFirstDashSpec(n);
    assert n[..2] + " " + n[3..] == "in progress";
    JsText.ReplaceFirstDashSpec(StatusName(s));
  }

  /** Only the first dash is replaced: a status `a-b-c` reads `a b-c`. */
  lemma {:induction false} OnlyFirstDashReplaced()
    ensures StatusLabel(Some(OtherStatus("a-b-c"))) == Some("a b-c")
  {
    var n := "a-b-c";
    assert n[0] != '-' && n[1] == '-';
    assert JsText.FirstDash(n) == 1;
    JsText.ReplaceFirstDashSpec(n);
    assert n[..1] + " " + n[2..] == "a b-c";
  }

  /** A timeline entry's colour: `resolved` and `in-progress` have their
      own, everything else takes the pending colour. */
  function EntryBadge(entry: TimelineEntry): (b: StatusBadge)
    ensures b == ResolvedBadge <==> entry.status == Some(Resolved)
    ensures b == InProgressBadge <==> entry.status == Some(InProgress)
  {
    if entry.status == Some(Resolved) then ResolvedBadge
    else if entry.status == Some(InProgress) then InProgressBadge
    else PendingBadge
  }
}
