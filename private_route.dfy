/**
 * The guard around signed-in pages (`src/frontend/src/components/PrivateRoute.tsx`):
 * from the sign-in flag, the loaded user and the path to a decision.
 */
module PrivateRoute {
  import opened Wrappers
  import opened Text

  datatype User = User(hasCompletedOnboarding: bool)

  datatype Decision = Redirect(to: string) | ShowLoading | Grant

  function Decide(isAuthenticated: bool, user: Option<User>, path: string): (d: Decision)
    ensures !isAuthenticated ==> d == Redirect("/")
    ensures isAuthenticated && user.None? ==> d == ShowLoading
    ensures isAuthenticated && user.Some? && user.value.hasCompletedOnboarding && StartsWith(path, "/onboarding")
      ==> d == Redirect("/dashboard")
    ensures isAuthenticated && user.Some? && !user.value.hasCompletedOnboarding && path == "/dashboard"
      ==> d == Redirect("/onboarding")
    ensures d == Grant <==>
      isAuthenticated && user.Some?
      && !(user.value.hasCompletedOnboarding && StartsWith(path, "/onboarding"))
      && !(!user.value.hasCompletedOnboarding && path == "/dashboard")
  {
    if !isAuthenticated then Redirect("/")
    else if user.None? then ShowLoading
    else if user.value.hasCompletedOnboarding && StartsWith(path, "/onboarding") then Redirect("/dashboard")
    else if !user.value.hasCompletedOnboarding && path == "/dashboard" then Redirect("/onboarding")
    else Grant
  }

  /**
   * Redirects are stable: a signed-in user with loaded data is let in at the
   * page they are sent to, and a signed-out user sent to "/" is sent to "/"
   * again, so no redirect leads to another redirect elsewhere.
   */
  lemma RedirectsSettle(isAuthenticated: bool, user: Option<User>, path: string)
    ensures var d := Decide(isAuthenticated, user, path);
      d.Redirect? ==>
        (isAuthenticated ==> Decide(isAuthenticated, user, d.to) == Grant)
        && (!isAuthenticated ==> Decide(isAuthenticated, user, d.to) == d)
  {
    var d := Decide(isAuthenticated, user, path);
    if d.Redirect? && isAuthenticated {
      assert "/onboarding" != "/dashboard";
      assert !StartsWith("/dashboard", "/onboarding") by {
        assert "/dashboard"[1] != "/onboarding"[1];
      }
    }
  }
}
