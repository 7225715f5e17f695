/** The issue record the pages receive from the server, its status and
    priority vocabularies, and the badge tables that several pages share. */
module Issues {
  import opened Wrappers
  import JsText

  /** The status strings the front end knows, plus any other string the
      server may send (`rejected`, a mis-cased value, ...). */
  datatype StatusValue = Pending | InProgress | Working | Resolved | Closed | OtherStatus(name: string)

  predicate IsKnownStatusName(n: string) {
    n == "pending" || n == "in-progress" || n == "working" || n == "resolved" || n == "closed"
  }

  /** A status is a status string: `OtherStatus` never carries one of the
      five known names, so two statuses are equal exactly when their strings
      are (JavaScript's `===`). */
  type Status = s: StatusValue | s.OtherStatus? ==> !IsKnownStatusName(s.name) witness Pending

  function StatusName(s: Status): string {
    match s
    case Pending => "pending"
    case InProgress => "in-progress"
    case Working => "working"
    case Resolved => "resolved"
    case Closed => "closed"
    case OtherStatus(n) => n
  }

  function ParseStatus(n: string): (s: Status)
    ensures IsKnownStatusName(n) <==> !s.OtherStatus?
  {
    match n
    case "pending" => Pending
    case "in-progress" => InProgress
    case "working" => Working
    case "resolved" => Resolved
    case "closed" => Closed
    case _ => OtherStatus(n)
  }

  /** Status strings and statuses are in one-to-one correspondence. */
  lemma StatusRoundTrip(s: Status, n: string)
    ensures ParseStatus(StatusName(s)) == s
    ensures StatusName(ParseStatus(n)) == n
  {
  }

  /** `a === b` on the status strings is equality of statuses. */
  lemma StatusNameInjective(s: Status, t: Status)
    ensures StatusName(s) == StatusName(t) <==> s == t
  {
    StatusRoundTrip(s, StatusName(t));
    StatusRoundTrip(t, StatusName(s));
  }

  datatype PriorityValue = Low | Medium | High | OtherPriority(name: string)

  predicate IsKnownPriorityName(n: string) {
    n == "low" || n == "medium" || n == "high"
  }

  type Priority = p: PriorityValue | p.OtherPriority? ==> !IsKnownPriorityName(p.name) witness Low

  function PriorityName(p: Priority): string {
    match p
    case Low => "low"
    case Medium => "medium"
    case High => "high"
    case OtherPriority(n) => n
  }

  function ParsePriority(n: string): (p: Priority)
    ensures IsKnownPriorityName(n) <==> !p.OtherPriority?
  {
    match n
    case "low" => Low
    case "medium" => Medium
    case "high" => High
    case _ => OtherPriority(n)
  }

  lemma PriorityRoundTrip(p: Priority, n: string)
    ensures ParsePriority(PriorityName(p)) == p
    ensures PriorityName(ParsePriority(n)) == n
  {
  }

  lemma PriorityNameInjective(p: Priority, q: Priority)
    ensures PriorityName(p) == PriorityName(q) <==> p == q
  {
    PriorityRoundTrip(p, PriorityName(q));
    PriorityRoundTrip(q, PriorityName(p));
  }

  /** One entry of an issue's timeline. Timestamps are opaque numbers. */
  datatype TimelineEntry = TimelineEntry(
    status: Option<Status>,
    message: string,
    updatedAt: int,
    updatedBy: Option<string>)

  datatype StaffRef = StaffRef(id: string, name: Option<string>, email: Option<string>)

  /** An issue as the server returns it; every field the pages read with
      optional chaining, or may find missing, is an `Option`. */
  datatype Issue = Issue(
    id: string,
    title: Option<string>,
    category: Option<string>,
    description: Option<string>,
    location: Option<string>,
    status: Option<Status>,
    priority: Option<Priority>,
    userEmail: Option<string>,
    isBoosted: bool,
    upvotes: Option<int>,
    upvotedBy: Option<seq<string>>,
    assignedStaff: Option<StaffRef>,
    timeline: Option<seq<TimelineEntry>>)

  /** The signed-in user from the authentication context; `None` when
      nobody is signed in. */
  datatype AuthUser = AuthUser(email: Option<string>, displayName: Option<string>)

  /** `user?.email` */
  function UserEmail(user: Option<AuthUser>): Option<string> {
    if user.Some? then user.value.email else None
  }

  /** `user?.displayName` */
  function UserName(user: Option<AuthUser>): Option<string> {
    if user.Some? then user.value.displayName else None
  }

  /** The three entries of every `statusConfig` table of the pages. */
  datatype StatusBadge = PendingBadge | InProgressBadge | ResolvedBadge

  function StatusBadgeKey(b: StatusBadge): string {
    match b
    case PendingBadge => "pending"
    case InProgressBadge => "in-progress"
    case ResolvedBadge => "resolved"
  }

  /** `statusConfig[key] || statusConfig['pending']`; a missing key
      (`undefined`) finds no entry. */
  function StatusBadgeFor(key: Option<string>): (b: StatusBadge)
    ensures forall e: StatusBadge :: key == Some(StatusBadgeKey(e)) ==> b == e
    ensures b != PendingBadge ==> key == Some(StatusBadgeKey(b))
  {
    match key
    case Some("in-progress") => InProgressBadge
    case Some("resolved") => ResolvedBadge
    case _ => PendingBadge
  }

  /** Every key outside the table falls back to the `pending` entry. */
  lemma StatusBadgeFallback(key: Option<string>)
    requires forall e: StatusBadge :: key != Some(StatusBadgeKey(e))
    ensures StatusBadgeFor(key) == PendingBadge
  {
    assert key != Some(StatusBadgeKey(InProgressBadge));
    assert key != Some(StatusBadgeKey(ResolvedBadge));
  }

  /** The three entries of every `priorityConfig` table. */
  datatype PriorityBadge = HighBadge | MediumBadge | LowBadge

  function PriorityBadgeKey(b: PriorityBadge): string {
    match b
    case HighBadge => "high"
    case MediumBadge => "medium"
    case LowBadge => "low"
  }

  /** `priorityConfig[key] || priorityConfig['low']`. */
  function PriorityBadgeFor(key: Option<string>): (b: PriorityBadge)
    ensures forall e: PriorityBadge :: key == Some(PriorityBadgeKey(e)) ==> b == e
    ensures b != LowBadge ==> key == Some(PriorityBadgeKey(b))
  {
    match key
    case Some("high") => HighBadge
    case Some("medium") => MediumBadge
    case _ => LowBadge
  }

  lemma PriorityBadgeFallback(key: Option<string>)
    requires forall e: PriorityBadge :: key != Some(PriorityBadgeKey(e))
    ensures PriorityBadgeFor(key) == LowBadge
  {
    assert key != Some(PriorityBadgeKey(HighBadge));
    assert key != Some(PriorityBadgeKey(MediumBadge));
  }

  /** `issue.status?.toLowerCase()` */
  function LowerStatusKey(s: Option<Status>): (k: Option<string>)
    ensures k.Some? <==> s.Some?
  {
    match s
    case None => None
    case Some(st) => Some(JsText.ToLower(StatusName(st)))
  }

  /** `issue.priority?.toLowerCase()` */
  function LowerPriorityKey(p: Option<Priority>): (k: Option<string>)
    ensures k.Some? <==> p.Some?
  {
    match p
    case None => None
    case Some(pr) => Some(JsText.ToLower(PriorityName(pr)))
  }

  /** `issue.status` used as a key as it is (a missing status is the key
      `undefined`). */
  function StatusKey(s: Option<Status>): (k: Option<string>)
    ensures k.Some? <==> s.Some?
  {
    match s
    case None => None
    case Some(st) => Some(StatusName(st))
  }
}
