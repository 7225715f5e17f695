/** The citizen's "My Issues" page: per-issue edit and delete, the update
    payload, the count line, the status badge and the empty-state text. */
module MyIssues {
  import opened Wrappers
  import opened Issues

  datatype RowActions = RowActions(edit: bool, delete: bool)

  /** Edit only for pending issues; delete for every issue. */
  function ActionsFor(issue: Issue): (a: RowActions)
    ensures a.edit <==> issue.status == Some(Pending)
    ensures a.delete
  {
    RowActions(issue.status == Some(Pending), true)
  }

  /** The edit form's fields, by name. */
  type FormData = map<string, string>

  /** `{ _id: selectedIssue._id, ...data }`: the form's fields are spread
      after `_id`, so a field of that name would win. */
  function WithId(id: string, data: FormData): (m: FormData)
    ensures "_id" in m && m.Keys == data.Keys + {"_id"}
  {
    map["_id" := id] + data
  }

  /** `const { _id, ...data } = updatedData`: the issue to patch and the
      payload, which is everything except `_id`. */
  function SplitId(m: FormData): (r: (string, FormData))
    requires "_id" in m
    ensures "_id" !in r.1 && r.1.Keys == m.Keys - {"_id"}
    ensures forall k :: k in r.1 ==> r.1[k] == m[k]
  {
    (m["_id"], map k | k in m && k != "_id" :: m[k])
  }

  /** The payload sent is exactly the submitted form, and the patched issue
      is the selected one, whenever the form has no `_id` field; in every
      case the payload carries no `_id`. */
  lemma UpdateRoundTrip(id: string, data: FormData)
    ensures "_id" !in SplitId(WithId(id, data)).1
    ensures "_id" !in data ==> SplitId(WithId(id, data)) == (id, data)
  {
    if "_id" !in data {
      var m := WithId(id, data);
      var r := SplitId(m);
      assert m["_id"] == id;
      assert r.1.Keys == data.Keys;
      assert forall k :: k in data ==> r.1[k] == m[k] == data[k];
      assert r.1 == data;
    }
  }

  /** "N issue reported" for one issue, "N issues reported" otherwise. */
  function CountNoun(n: nat): (r: string)
    ensures r == "issue" <==> n == 1
    ensures r != "issue" ==> r == "issues"
  {
    if n == 1 then "issue" else "issues"
  }

  /** `statusStyles[status] || statusStyles.pending`: the status string
      selects its style as it is; anything else takes the pending style. */
  function BadgeStyle(status: Option<Status>): (b: StatusBadge)
    ensures forall e: StatusBadge :: status.Some? && StatusName(status.value) == StatusBadgeKey(e) ==> b == e
    ensures b != PendingBadge ==> status.Some? && StatusName(status.value) == StatusBadgeKey(b)
  {
    StatusBadgeFor(StatusKey(status))
  }

  /** `statusIcons[status]`, which has no fallback. */
  function BadgeIcon(status: Option<Status>): (r: Option<StatusBadge>)
    ensures r.Some? ==> r.value == BadgeStyle(status)
  {
    match status
    case Some(Pending) => Some(PendingBadge)
    case Some(InProgress) => Some(InProgressBadge)
    case Some(Resolved) => Some(ResolvedBadge)
    case _ => None
  }

  /** A status outside the table is drawn in the pending style with no
      icon; a status in it gets its own style and icon. */
  lemma {:induction false} BadgeFallback(status: Option<Status>)
    ensures BadgeIcon(status).None? <==> !(status in {Some(Pending), Some(InProgress), Some(Resolved)})
    ensures BadgeIcon(status).None? ==> BadgeStyle(status) == PendingBadge
  {
    if status.Some? && status.value.OtherStatus? {
      assert StatusName(status.value) != "in-progress" && StatusName(status.value) != "resolved";
    }
  }

  /** The text under "No Issues Found". */
  function EmptyStateText(statusFilter: string): (r: string)
    ensures statusFilter != "" ==> r == "No " + statusFilter + " issues to display."
    ensures statusFilter == "" ==> r == "You haven't reported any issues yet."
  {
    if statusFilter != "" then "No " + statusFilter + " issues to display."
    else "You haven't reported any issues yet."
  }
}
