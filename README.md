# CivicFix issue workflow rules

CivicFix is a React front end for reporting infrastructure problems: citizens
report issues, staff move them through their lifecycle, administrators assign,
reject and manage users. Persistence and authorization live behind a REST
server that is not part of this model. What the pages decide on their own is a
set of small, total rules, and those are modelled here, one Dafny module per
page:

- `AssignedIssues` (`src/pages/staff/AssignedIssues.jsx`): the one-step status
  successor chain pending → in-progress → working → resolved → closed, the
  status-change request, the status/priority filter and the "Finalized" cell.
- `AdminAllIssues` (`src/pages/admin/AdminAllIssues.jsx`): the case-insensitive
  search with status filter, the statistics cards, assign/reject gating, and
  the badge lookups with their fallbacks.
- `ReportIssue` (`src/pages/citizen/ReportIssue.jsx`): the free-tier quota
  (three reports unless premium) and the record posted after a successful
  image upload.
- `AllIssues` (`src/pages/issues/AllIssues.jsx`): the upvote guards (signed in,
  not one's own issue), `hasUpvoted`, the issue card and the empty-state text.
- `AllIssuesDetails` (`src/pages/issues/AllIssuesDetails.jsx`): ownership, the
  owner's edit/delete/boost buttons, the newest-first timeline and the status
  label.
- `ManageUsers` (`src/pages/admin/ManageUsersPage.jsx`): the block/unblock
  toggle and the subscription summary.
- `PaymentPage` (`src/pages/admin/PaymentPage.jsx`): the payment search.
- `MyIssues` (`src/pages/citizen/MyIssues.jsx`): edit/delete gating, the update
  payload without `_id`, the count line, the badge and the empty-state text.
- `Banner` (`src/components/banner/Banner.jsx`): the carousel as a class whose
  methods update `currentSlide` and `isAutoPlaying`, the theme lookup and the
  marquee separators.

Shared modules model what the pages borrow from JavaScript: `Wrappers`
(`undefined` as `None`), `JsText` (`toLowerCase`, `includes`, `replace`, and
`||` on strings), `JsArray` (`filter`, `filter(...).length`,
`slice().reverse()`), and `Issues` (the issue record, the status and priority
vocabularies, and the badge tables). A status is a datatype with an
`OtherStatus(name)` case that never carries one of the five known names, so
statuses and status strings correspond one to one (`Issues.StatusRoundTrip`)
and datatype equality is JavaScript's `===` on the strings.

Where the intended workflow and the pages differ, the model follows the pages:
the owner is offered delete in every status, not only while pending; the
administrator's search looks at title and category, not location; the quota is
checked only on the report page; the terminal `rejected` status is set by the
server and is an `OtherStatus` to every page; and the administrator's badge
table has no entry for `working` or `closed`, which are therefore shown with
the `Pending` badge (`AdminAllIssues.AdminStatusBadgeSpec`).

## Model

| member | source | states |
|---|---|---|
| `AssignedIssues.NextStatusOptions` | src/pages/staff/AssignedIssues.jsx:26-34 | at most one successor; each of the first four lifecycle statuses has exactly the next lifecycle status as its only option |
| `AssignedIssues.TerminalStatuses` | src/pages/staff/AssignedIssues.jsx:32 | closed, unknown and missing statuses, and only those, have no successor |
| `AssignedIssues.SuccessorIsNextRank` | src/pages/staff/AssignedIssues.jsx:28-31 | every offered successor is exactly one lifecycle position further |
| `AssignedIssues.IterateRaisesRank` | src/pages/staff/AssignedIssues.jsx:26-34 | following the options k times raises the lifecycle position by exactly k |
| `AssignedIssues.NoRevisit` | src/pages/staff/AssignedIssues.jsx:26-34 | no status is reached again after one or more steps: no cycles, no reverts |
| `AssignedIssues.WalkFromPending` | src/pages/staff/AssignedIssues.jsx:26-34 | from pending the walk visits the lifecycle in order, reaches closed after exactly 4 steps and stops |
| `AssignedIssues.ClosedStaysStopped` | src/pages/staff/AssignedIssues.jsx:32 | nothing follows closed, however many steps are taken |
| `AssignedIssues.StatusChange` | src/pages/staff/AssignedIssues.jsx:36-43 | an empty selection sends nothing; otherwise one request with the new status and the message "Staff changed status from ‹current› to ‹new›" |
| `AssignedIssues.ControlFor` | src/pages/staff/AssignedIssues.jsx:127-141 | the "Finalized" cell replaces the select exactly for closed issues |
| `AssignedIssues.SelectOnlyAdvances` | src/pages/staff/AssignedIssues.jsx:128-139 | any option the select offers produces a request that moves the issue exactly one lifecycle step, never from closed |
| `AssignedIssues.FilteredIssues` | src/pages/staff/AssignedIssues.jsx:59-63 | order-preserving subsequence, kept iff status and priority both match, every copy of a kept issue kept and no copy of any other; both filters `all` returns the input |
| `AdminAllIssues.FilteredIssues` | src/pages/admin/AdminAllIssues.jsx:99-104 | order-preserving subsequence, no longer than the input; kept iff lower-cased title or category contains the lower-cased term and the status filter is `all` or equal; every copy of a kept issue is kept and no copy of any other |
| `AdminAllIssues.UntitledNeverKept` | src/pages/admin/AdminAllIssues.jsx:100-101 | an issue with neither title nor category is never shown, whatever the term |
| `AdminAllIssues.EmptySearchKeepsDescribed` | src/pages/admin/AdminAllIssues.jsx:99-104 | with an empty term and filter `all`, exactly the issues with a title or a category are shown |
| `AdminAllIssues.SearchIgnoresTermCase` | src/pages/admin/AdminAllIssues.jsx:100-101 | a term and its lower-case form select the same issues |
| `AdminAllIssues.ComputeStats` | src/pages/admin/AdminAllIssues.jsx:107-113 | total is the length; pending + in-progress + resolved ≤ total; boosted ≤ total; each count is the size of its filter |
| `AdminAllIssues.ResultsCount` | src/pages/admin/AdminAllIssues.jsx:352-356 | "Showing N of M" appears iff something is shown, with 0 < N ≤ M and M the number of issues |
| `AdminAllIssues.EmptyStateText` | src/pages/admin/AdminAllIssues.jsx:190-192 | the search hint is shown iff the search term is non-empty |
| `AdminAllIssues.ActionsFor` | src/pages/admin/AdminAllIssues.jsx:238-268 | assign is offered iff no staff is assigned; reject iff the status is pending |
| `AdminAllIssues.NoRejectAfterProgress` | src/pages/admin/AdminAllIssues.jsx:260 | an issue moved one or more steps along the lifecycle is never offered reject |
| `AdminAllIssues.AdminStatusBadge` | src/pages/admin/AdminAllIssues.jsx:449-456 | the raw status string, not lower-cased, selects its table entry; a badge other than pending is shown only for the status named by its key |
| `AdminAllIssues.AdminPriorityBadge` | src/pages/admin/AdminAllIssues.jsx:467-474 | the lower-cased priority string selects its table entry; a badge other than low is shown only for a priority whose lower-cased name is its key |
| `AdminAllIssues.AdminStatusBadgeSpec` | src/pages/admin/AdminAllIssues.jsx:449-456 | in-progress and resolved get their own badge; every other status, working and closed included, gets the pending badge |
| `AdminAllIssues.AdminPriorityBadgeSpec` | src/pages/admin/AdminAllIssues.jsx:467-474 | the priority is lower-cased before lookup; high and medium keep their badge; a missing priority falls back to low |
| `Issues.StatusRoundTrip` | src/pages/staff/AssignedIssues.jsx:27-32 | parsing a status string and naming a status are inverse |
| `Issues.StatusNameInjective` | src/pages/admin/AdminAllIssues.jsx:102 | equal status strings are equal statuses and conversely |
| `Issues.PriorityRoundTrip` | src/pages/admin/AdminAllIssues.jsx:468-474 | parsing a priority string and naming a priority are inverse |
| `Issues.PriorityNameInjective` | src/pages/staff/AssignedIssues.jsx:61 | equal priority strings are equal priorities and conversely |
| `Issues.StatusBadgeFor` | src/pages/admin/AdminAllIssues.jsx:450-456 | a key of the status table finds its own entry; any entry other than pending is found only by its own key |
| `Issues.StatusBadgeFallback` | src/pages/admin/AdminAllIssues.jsx:456 | any key outside the table, or a missing key, finds the pending entry |
| `Issues.PriorityBadgeFor` | src/pages/admin/AdminAllIssues.jsx:468-474 | a key of the priority table finds its own entry; any entry other than low is found only by its own key |
| `Issues.PriorityBadgeFallback` | src/pages/admin/AdminAllIssues.jsx:474 | any key outside the table, or a missing key, finds the low entry |
| `ReportIssue.IsLimitReached` | src/pages/citizen/ReportIssue.jsx:104-107 | limit reached iff the role is not premium and the submitted count is present and at least 3; a missing count is 0 |
| `ReportIssue.LimitMonotone` | src/pages/citizen/ReportIssue.jsx:105-107 | a larger count never lifts the limit; premium never reaches it |
| `ReportIssue.PageFor` | src/pages/citizen/ReportIssue.jsx:116-130 | the form is offered iff the limit is not reached; the notice reports a count of at least 3 |
| `ReportIssue.Submission` | src/pages/citizen/ReportIssue.jsx:66-91 | a record is posted iff the upload reports success; it copies title, description, category and location, carries the uploaded URL and the reporter, is pending, and its timeline is the one entry "Issue reported by citizen." |
| `ReportIssue.FreshIssueWorkflow` | src/pages/citizen/ReportIssue.jsx:70-88 | a just-reported issue: staff's only move is in-progress; admin may assign and reject; the reporter may edit, delete and boost but not upvote; the timeline shows the one entry |
| `AllIssues.Upvote` | src/pages/issues/AllIssues.jsx:34-43 | no user redirects to login; the author's own email is refused; only otherwise is the upvote sent |
| `AllIssues.NoSelfUpvote` | src/pages/issues/AllIssues.jsx:36 | the reporter's click, or an anonymous one, never sends an upvote |
| `AllIssues.HasUpvoted` | src/pages/issues/AllIssues.jsx:217 | true iff the list is present and holds the user's email |
| `AllIssues.CardFor` | src/pages/issues/AllIssues.jsx:202-279 | status and priority looked up lower-cased with pending and low fallbacks; upvote count 0 when missing |
| `AllIssues.CardAgreesWithAdminOnLowerCase` | src/pages/issues/AllIssues.jsx:215 | for a lower-case status string the card shows the administrator's badge |
| `AllIssues.CardRecognisesMiscasedStatus` | src/pages/issues/AllIssues.jsx:215 | a status string outside the known names that lower-cases to `in-progress` or `resolved` gets that badge on the card and the pending badge in the admin table |
| `AllIssues.CardRecognisesCapitalisedStatus` | src/pages/issues/AllIssues.jsx:215 | `Resolved` gets the resolved badge on the card and the pending badge in the admin table |
| `AllIssues.EmptyStateText` | src/pages/issues/AllIssues.jsx:170-172 | the adjust-filters text iff the search is non-empty or category or status is not `all` |
| `AllIssues.EmptyStateIgnoresPriority` | src/pages/issues/AllIssues.jsx:170 | the priority filter does not affect the text |
| `AllIssues.PluralSuffix` | src/pages/issues/AllIssues.jsx:144 | the plural `s` is dropped iff the count is one |
| `AllIssuesDetails.IsOwner` | src/pages/issues/AllIssuesDetails.jsx:171 | a viewer with an email owns exactly the issues recorded under that email; a viewer without one (or nobody signed in) owns exactly the issues without an email |
| `AllIssuesDetails.AnonymousOwnsEmaillessIssue` | src/pages/issues/AllIssuesDetails.jsx:171 | a visitor who is not signed in is the owner of an issue without an email (`undefined === undefined`) |
| `AllIssuesDetails.ActionsFor` | src/pages/issues/AllIssuesDetails.jsx:257-285 | non-owners see nothing; edit iff owner and pending; delete iff owner; boost iff owner and not boosted |
| `AllIssuesDetails.BoostOfferedOnce` | src/pages/issues/AllIssuesDetails.jsx:275 | once boosted, boost is never offered again and delete is unaffected |
| `AllIssuesDetails.BoostOutcomeFor` | src/pages/issues/AllIssuesDetails.jsx:64-86 | the success path iff the server modified more than zero records; the error path iff the request failed |
| `AllIssuesDetails.TimelineFor` | src/pages/issues/AllIssuesDetails.jsx:321-355 | "no updates" iff the timeline is missing or empty; otherwise position k shows entry length−1−k |
| `AllIssuesDetails.NewestFirst` | src/pages/issues/AllIssuesDetails.jsx:323-327 | the highlighted top entry is the last appended; appending puts the new entry on top and shifts the rest |
| `AllIssuesDetails.StatusLabel` | src/pages/issues/AllIssuesDetails.jsx:218 | a label exists iff the status does, with the status name's length |
| `AllIssuesDetails.StatusLabels` | src/pages/issues/AllIssuesDetails.jsx:218 | `in-progress` reads `in progress`; a name without a dash is shown unchanged |
| `AllIssuesDetails.OnlyFirstDashReplaced` | src/pages/issues/AllIssuesDetails.jsx:218 | only the first dash becomes a space: `a-b-c` reads `a b-c` |
| `AllIssuesDetails.EntryBadge` | src/pages/issues/AllIssuesDetails.jsx:331-335 | resolved and in-progress entries get their own colour, everything else the pending colour |
| `ManageUsers.IsBlocking` | src/pages/admin/ManageUsersPage.jsx:28 | the click blocks an active user or one without a status, and unblocks a blocked user |
| `ManageUsers.ToggledStatus` | src/pages/admin/ManageUsersPage.jsx:27-45 | sends `blocked` or `active`, `active` iff currently blocked; active and blocked always change |
| `ManageUsers.ToggleTwice` | src/pages/admin/ManageUsersPage.jsx:28-43 | two toggles restore active and blocked; any other status becomes blocked, then active |
| `ManageUsers.ButtonLabel` | src/pages/admin/ManageUsersPage.jsx:114 | "Unblock" iff the status is blocked |
| `ManageUsers.NameSuffix` | src/pages/admin/ManageUsersPage.jsx:92 | "(Blocked)" iff the status is blocked, nothing otherwise |
| `ManageUsers.LabelMatchesAction` | src/pages/admin/ManageUsersPage.jsx:28-43 | the caption says "Block" exactly when the click sends `blocked` |
| `ManageUsers.ConfirmText` | src/pages/admin/ManageUsersPage.jsx:32 | the confirmation names the same action as the button and the user's name |
| `ManageUsers.SubscriptionInfoFor` | src/pages/admin/ManageUsersPage.jsx:56-67 | a missing or empty plan reads "Free", a missing or empty expiry "N/A"; present non-empty values are shown |
| `PaymentPage.FilterPayments` | src/pages/admin/PaymentPage.jsx:32-38 | order-preserving subsequence of all payments; kept iff lower-cased email or transaction id contains the lower-cased term, with every copy of a kept payment and no copy of any other; empty term keeps all |
| `PaymentPage.TypingNarrows` | src/pages/admin/PaymentPage.jsx:33-38 | extending the term only removes payments; clearing it restores the full list |
| `MyIssues.ActionsFor` | src/pages/citizen/MyIssues.jsx:176-190 | edit iff pending; delete always |
| `MyIssues.WithId` | src/pages/citizen/MyIssues.jsx:271 | the mutation argument holds `_id` and every form field |
| `MyIssues.SplitId` | src/pages/citizen/MyIssues.jsx:46 | the payload is every field except `_id`, with its value |
| `MyIssues.UpdateRoundTrip` | src/pages/citizen/MyIssues.jsx:44-50 | the payload never holds `_id`; for a form without `_id` it is exactly the form and the selected issue is patched |
| `MyIssues.CountNoun` | src/pages/citizen/MyIssues.jsx:100 | "issue" iff exactly one, otherwise "issues" |
| `MyIssues.BadgeStyle` | src/pages/citizen/MyIssues.jsx:324-338 | the raw status string selects its style; a style other than pending is used only for the status named by its key |
| `MyIssues.BadgeIcon` | src/pages/citizen/MyIssues.jsx:330-339 | an icon, when present, belongs to the style shown |
| `MyIssues.BadgeFallback` | src/pages/citizen/MyIssues.jsx:324-339 | a status outside the table has no icon and the pending style; the three known ones have both |
| `MyIssues.EmptyStateText` | src/pages/citizen/MyIssues.jsx:128 | names the status filter iff one is set |
| `Banner.Next` | src/components/banner/Banner.jsx:65-66 | stays below n; the last slide wraps to 0, others advance by one |
| `Banner.Prev` | src/components/banner/Banner.jsx:71-72 | stays below n; slide 0 wraps to n−1, others go back by one |
| `Banner.NextPrevInverse` | src/components/banner/Banner.jsx:66-72 | next and previous undo each other |
| `Banner.AdvanceWithinRound` | src/components/banner/Banner.jsx:52-53 | k interval ticks within one round move from slide i to slide i+k |
| `Banner.AdvanceAdd` | src/components/banner/Banner.jsx:52-53 | a ticks then b ticks equal a+b ticks |
| `Banner.FullCycle` | src/components/banner/Banner.jsx:49-57 | n steps return to the start and no positive smaller number of steps does |
| `Banner.ThemeFor` | src/components/banner/Banner.jsx:77-96 | green and orange get their theme; any other name the blue theme |
| `Banner.SlideThemes` | src/components/banner/Banner.jsx:7-38 | the three slides use the blue, green and orange themes in order |
| `Banner.MarqueeItems` | src/components/banner/Banner.jsx:303 | the list is twice as long, each half the item list |
| `Banner.SeparatorAllButLast` | src/components/banner/Banner.jsx:307 | every marquee item except the last gets a separator |
| `Banner.Carousel.constructor` | src/components/banner/Banner.jsx:4-5 | starts at slide 0 with autoplay on |
| `Banner.Carousel.Tick` | src/components/banner/Banner.jsx:49-54 | while autoplaying, the interval moves to the next slide |
| `Banner.Carousel.NextSlide` | src/components/banner/Banner.jsx:65-69 | moves to the next slide and pauses autoplay |
| `Banner.Carousel.PrevSlide` | src/components/banner/Banner.jsx:71-75 | moves to the previous slide and pauses autoplay |
| `Banner.Carousel.GoToSlide` | src/components/banner/Banner.jsx:59-63 | shows exactly the chosen slide and pauses autoplay |
| `Banner.Carousel.ResumeAutoPlay` | src/components/banner/Banner.jsx:62 | the timeout turns autoplay back on without moving |
| `Banner.Carousel.CurrentTheme` | src/components/banner/Banner.jsx:98 | slides 0, 1 and 2 are drawn in the blue, green and orange theme respectively |
| `JsText.ToLower` | src/pages/admin/AdminAllIssues.jsx:100-101 | `toLowerCase` keeps the length and lower-cases each character in place |
| `JsText.Includes` | src/pages/admin/AdminAllIssues.jsx:100-101 | the empty term is included in every string; a string never includes a longer one (see `JsText.IncludesIff` for the exact meaning) |
| `JsText.ReplaceFirstDash` | src/pages/issues/AllIssuesDetails.jsx:218 | `replace('-', ' ')` keeps the length (see `JsText.ReplaceFirstDashSpec` for which character changes) |
| `JsText.OrElse` | src/pages/admin/ManageUsersPage.jsx:61-63 | a string default written with JavaScript's "or" gives a present non-empty value, and the fallback for a missing or empty one |
| `JsText.IncludesIff` | src/pages/admin/AdminAllIssues.jsx:100-101 | `includes` holds iff the term occurs at some position |
| `JsText.ToLowerIdempotent` | src/pages/admin/AdminAllIssues.jsx:100-101 | lower-casing twice is lower-casing once |
| `JsText.IncludesTransitive` | src/pages/admin/PaymentPage.jsx:34-35 | a string including `a` includes everything `a` includes |
| `JsText.ReplaceFirstDashSpec` | src/pages/issues/AllIssuesDetails.jsx:218 | only the first dash is replaced by a space; everything else is kept |
| `JsArray.Filter` | src/pages/admin/AdminAllIssues.jsx:98-104 | `filter` never lengthens the array and keeps only elements satisfying the predicate (see `JsArray.FilterMembership` for the converse) |
| `JsArray.Reverse` | src/pages/issues/AllIssuesDetails.jsx:323 | `slice().reverse()` keeps the length (see `JsArray.ReverseAt` for the order) |
| `JsArray.FilterIsSubsequence` | src/pages/admin/AdminAllIssues.jsx:99 | `filter` returns an order-preserving subsequence |
| `JsArray.FilterMembership` | src/pages/admin/AdminAllIssues.jsx:99 | an element is kept iff it occurs and satisfies the predicate |
| `JsArray.FilterCounts` | src/pages/admin/AdminAllIssues.jsx:108-112 | the filtered array holds as many copies of a matching element as the input and none of any other element, so each statistics count is the number of issues that match |
| `JsArray.FilterKeepsAll` | src/pages/admin/PaymentPage.jsx:33 | the filter returns its input iff every element satisfies the predicate |
| `JsArray.ExclusiveCountsBounded` | src/pages/admin/AdminAllIssues.jsx:109-111 | counts of three mutually exclusive predicates add up to at most the length |
| `JsArray.ReverseAt` | src/pages/issues/AllIssuesDetails.jsx:323 | position k of the reversed copy is position length−1−k of the input |
| `JsArray.ReverseInvolution` | src/pages/issues/AllIssuesDetails.jsx:323 | reversing twice gives back the stored timeline |

## Left out

- REST calls, their responses and query caching: the server applies the search and filters of the "Browse Issues" and "My Issues" pages, performs upvotes, boosts, assignment, rejection, deletion and status updates, and none of its rules is visible here. Request URLs are not modelled; the delete request of `src/pages/citizen/MyIssues.jsx:28` is sent to `/<id>`, while the details page deletes at `/issues/<id>`.
- Authentication and the image host are parameters: the signed-in user is an `Option<AuthUser>`, the upload's answer an `UploadResult`.
- Clocks and timers: `Date.now()`/`new Date()` are a `now` parameter; the carousel's six-second interval and ten-second pause are the callers of `Carousel.Tick` and `Carousel.ResumeAutoPlay`, and the search debounce is not modelled.
- Confirmation dialogs, toasts, navigation, loading states, styling and date formatting; badge entries stand for their CSS classes.
- The assign form's staff lookup (`staffs.find`) and its failure path are not modelled; only the gating of the assign button is.
- Strings are sequences of Unicode scalar values, not UTF-16 code units: a character outside the Basic Multilingual Plane has length 1 here and 2 in JavaScript. No modelled rule depends on string length.
- `PaymentPage.Payment`: `userEmail` and `transactionId` are always present; the page calls `toLowerCase` on both without optional chaining, so a record missing either would throw, and that failure is not modelled.
- `Issues.AuthUser`: a missing email is `None`, the same value as an issue's absent `userEmail`; JavaScript distinguishes a `null` email from `undefined`, but the email/password and Google sign-in the application offers always provide an email, so the difference is not modelled.
- `null` and `undefined` are one case everywhere (`None`): `AssignedIssues.Interpolate` prints a missing status as "undefined", where a `null` status would print "null" in JavaScript.
- `JsText.ToLower`: maps only the ASCII letters A–Z; JavaScript's full Unicode case mapping is not modelled.
- JavaScript truthiness is modelled for missing values and empty strings; `NaN` counts and inherited object keys such as `toString` in the badge tables are not modelled.
- `Banner.Carousel.Tick`: requires autoplay to be on, since the interval exists only while it is.
