/**
 * The subscription status of a child's account (`src/backend/api/billing_status.ts`).
 * The three lookups are parameters: whether the child exists, the user
 * whose selected child it is, and that user's subscription row; each is
 * `Err` when its database query throws.
 */
module BillingStatus {
  import opened Wrappers

  datatype SubscriptionRow = SubscriptionRow(status: string, plan: string, current_period_end: Option<int>,
                                             cancel_at_period_end: int)

  datatype Response =
    | BadRequest400
    | Failed500
    | Status(isActive: bool, plan: string, currentPeriodEnd: Option<int>, cancelAtPeriodEnd: bool)

  /** The answer for an account with no paid plan. */
  const Free := Status(false, "free", None, false)

  /**
   * What the three queries give for a child id, in the order the handler
   * runs them: `Err` when one throws (the later ones are then not run),
   * `Ok(None)` when the handler stops at a missing row, else the
   * subscription row.
   */
  function RowFor(child_id: string, childExists: string -> Result<bool, string>,
                  userSelecting: string -> Result<Option<string>, string>,
                  subscriptionOf: string -> Result<Option<SubscriptionRow>, string>): Result<Option<SubscriptionRow>, string>
  {
    var child := childExists(child_id);
    if child.Err? then Err(child.error)
    else if !child.value then Ok(None)
    else
      var user := userSelecting(child_id);
      if user.Err? then Err(user.error)
      else if user.value.None? then Ok(None)
      else subscriptionOf(user.value.value)
  }

  /**
   * The GET handler: 400 without a child id; 500 when a query throws; the
   * free answer when the child, the user selecting it or the subscription
   * is missing; otherwise the row's fields.
   */
  function GetBillingStatus(child_id: Option<string>, childExists: string -> Result<bool, string>,
                            userSelecting: string -> Result<Option<string>, string>,
                            subscriptionOf: string -> Result<Option<SubscriptionRow>, string>): (r: Response)
    ensures (child_id.None? || child_id.value == "") <==> r == BadRequest400
    ensures child_id.Some? && child_id.value != "" ==>
      var row := RowFor(child_id.value, childExists, userSelecting, subscriptionOf);
      (row.Err? <==> r == Failed500)
      && (row == Ok(None) ==> r == Free)
      && (row.Ok? && row.value.Some? ==>
            r.Status? && (r.isActive <==> row.value.value.status == "active")
            && (r.cancelAtPeriodEnd <==> row.value.value.cancel_at_period_end == 1)
            && r.plan == row.value.value.plan && r.currentPeriodEnd == row.value.value.current_period_end)
  {
    if child_id.None? || child_id.value == "" then BadRequest400
    else
      var child := childExists(child_id.value);
      if child.Err? then Failed500
      else if !child.value then Free
      else
        var user := userSelecting(child_id.value);
        if user.Err? then Failed500
        else if user.value.None? then Free
        else
          var sub := subscriptionOf(user.value.value);
          if sub.Err? then Failed500
          else if sub.value.None? then Free
          else Status(sub.value.value.status == "active", sub.value.value.plan, sub.value.value.current_period_end,
                      sub.value.value.cancel_at_period_end == 1)
  }
}
