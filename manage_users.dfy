/** The administrator's "Manage Citizens" page: the block/unblock toggle,
    the labels that depend on the account status, and the subscription
    summary. Account statuses are the server's strings. */
module ManageUsers {
  import opened Wrappers
  import JsText

  datatype Citizen = Citizen(
    name: string,
    status: Option<string>,
    subscriptionPlan: Option<string>,
    isSubscribed: bool,
    expiryDate: Option<string>)

  /** `isBlocking = user.status !== 'blocked'` */
  function IsBlocking(status: Option<string>): (r: bool)
    ensures status == Some("blocked") ==> !r
    ensures status == Some("active") ==> r
    ensures status.None? ==> r
  {
    status != Some("blocked")
  }

  /** The status `handleToggleBlock` sends: `blocked` when blocking,
      `active` when unblocking. */
  function ToggledStatus(status: Option<string>): (r: string)
    ensures r == "blocked" || r == "active"
    ensures r == "active" <==> status == Some("blocked")
    ensures status == Some("blocked") || status == Some("active") ==> Some(r) != status
  {
    if IsBlocking(status) then "blocked" else "active"
  }

  /** Toggling twice restores `active` and `blocked`; any other status,
      or none, is blocked by the first toggle and becomes `active` after
      the second. */
  lemma ToggleTwice(status: Option<string>)
    ensures status == Some("active") || status == Some("blocked") ==>
      Some(ToggledStatus(Some(ToggledStatus(status)))) == status
    ensures status != Some("active") && status != Some("blocked") ==>
      ToggledStatus(status) == "blocked" && ToggledStatus(Some(ToggledStatus(status))) == "active"
  {
  }

  /** The button's caption. */
  function ButtonLabel(status: Option<string>): (r: string)
    ensures r == "Unblock" <==> status == Some("blocked")
  {
    if status == Some("blocked") then "Unblock" else "Block"
  }

  /** The suffix after the name. */
  function NameSuffix(status: Option<string>): (r: string)
    ensures r == "(Blocked)" <==> status == Some("blocked")
    ensures r != "(Blocked)" ==> r == ""
  {
    if status == Some("blocked") then "(Blocked)" else ""
  }

  /** The caption always names the action the click performs: "Block"
      exactly when the toggle sends `blocked`. */
  lemma LabelMatchesAction(status: Option<string>)
    ensures ButtonLabel(status) == "Block" <==> ToggledStatus(status) == "blocked"
    ensures ButtonLabel(status) == "Block" <==> IsBlocking(status)
  {
  }

  /** The confirmation text "You want to Block <name>" or "... Unblock ...". */
  function ConfirmText(user: Citizen): (r: string)
    ensures r == "You want to " + ButtonLabel(user.status) + " " + user.name
  {
    "You want to " + (if IsBlocking(user.status) then "Block" else "Unblock") + " " + user.name
  }

  datatype SubscriptionInfo = SubscriptionInfo(plan: string, active: bool, expiry: string)

  /** `showSubscriptionInfo`: a missing or empty plan reads "Free", a
      missing or empty expiry date reads "N/A". */
  function SubscriptionInfoFor(user: Citizen): (r: SubscriptionInfo)
    ensures user.subscriptionPlan.None? || user.subscriptionPlan == Some("") ==> r.plan == "Free"
    ensures user.expiryDate.None? || user.expiryDate == Some("") ==> r.expiry == "N/A"
    ensures user.subscriptionPlan.Some? && user.subscriptionPlan.value != "" ==> r.plan == user.subscriptionPlan.value
    ensures user.expiryDate.Some? && user.expiryDate.value != "" ==> r.expiry == user.expiryDate.value
    ensures r.active == user.isSubscribed
  {
    SubscriptionInfo(JsText.OrElse(user.subscriptionPlan, "Free"), user.isSubscribed,
      JsText.OrElse(user.expiryDate, "N/A"))
  }
}
