/**
 * Feature flags (`src/backend/api/flags.ts`): every premium feature
 * follows one boolean, whether the user's latest subscription is active.
 * Token verification (`jsonwebtoken`) is a parameter returning the user
 * id, `None` when it throws; the latest subscription row is looked up by
 * that id, `Err` when the database query throws.
 */
module Flags {
  import opened Wrappers
  import opened BearerAuth

  datatype FeatureFlags = FeatureFlags(is_premium: bool, practice_enabled: bool, media_uploads: bool,
                                       calendar_enabled: bool, journal_enabled: bool, family_sharing: bool)

  datatype Subscription = Subscription(status: string)

  datatype Response = Unauthorized401 | Failed500 | FlagsOk(flags: FeatureFlags)

  /** `subscription?.status === 'active'`. */
  predicate IsPremium(latest: Option<Subscription>)
  {
    latest.Some? && latest.value.status == "active"
  }

  function FlagsFor(isPremium: bool): (f: FeatureFlags)
    ensures f.journal_enabled
    ensures f.is_premium == f.practice_enabled == f.media_uploads == f.calendar_enabled == f.family_sharing == isPremium
  {
    FeatureFlags(isPremium, isPremium, isPremium, isPremium, true, isPremium)
  }

  /**
   * The GET handler: 401 unless the header starts "Bearer "; 500 when the
   * token does not verify or the subscription query throws (`Err`);
   * otherwise the flags of the user's latest subscription.
   */
  function GetFlags(authHeader: Option<string>, verify: string -> Option<string>,
                    latestSubscription: string -> Result<Option<Subscription>, string>): (r: Response)
    ensures !HasBearer(authHeader) <==> r == Unauthorized401
    ensures HasBearer(authHeader) ==>
      var user := verify(BearerToken(authHeader.value));
      (r.FlagsOk? <==> user.Some? && latestSubscription(user.value).Ok?)
      && (r == Failed500 <==> user.None? || latestSubscription(user.value).Err?)
    ensures r.FlagsOk? ==>
      var user := verify(BearerToken(authHeader.value));
      user.Some? && latestSubscription(user.value).Ok?
      && (r.flags.is_premium <==> IsPremium(latestSubscription(user.value).value))
      && r.flags == FlagsFor(IsPremium(latestSubscription(user.value).value))
  {
    if !HasBearer(authHeader) then Unauthorized401
    else
      var user := verify(BearerToken(authHeader.value));
      if user.None? then Failed500
      else
        var latest := latestSubscription(user.value);
        if latest.Err? then Failed500
        else FlagsOk(FlagsFor(IsPremium(latest.value)))
  }

  /** No subscription, or one in any status but "active", gives the free flags: only the journal. */
  lemma FreeFlags(latest: Option<Subscription>)
    requires latest.None? || latest.value.status != "active"
    ensures FlagsFor(IsPremium(latest)) == FeatureFlags(false, false, false, false, true, false)
  {
  }
}
