/**
 * `GuestRoute`: the mirror image of `PrivateRoute`, for pages that only a
 * signed-out visitor may see.
 */
module GuestRoute {
  import opened Wrappers
  import Types
  import PrivateRoute

  const HomePath := "/"

  function Guard(isLoading: bool, user: Option<Types.User>): (r: PrivateRoute.GuardOutcome)
    ensures isLoading ==> r == PrivateRoute.GuardOutcome(PrivateRoute.Spinner, None)
    ensures !isLoading && user.Some? ==> r.view == PrivateRoute.Nothing && r.redirect == Some(HomePath)
    ensures !isLoading && user.None? ==> r.view == PrivateRoute.Children && r.redirect == None
    ensures r.view == PrivateRoute.Children <==> !isLoading && user.None?
    ensures r.redirect.Some? <==> !isLoading && user.Some?
  {
    var redirect := if !isLoading && user.Some? then Some(HomePath) else None;
    if isLoading then PrivateRoute.GuardOutcome(PrivateRoute.Spinner, redirect)
    else if user.Some? then PrivateRoute.GuardOutcome(PrivateRoute.Nothing, redirect)
    else PrivateRoute.GuardOutcome(PrivateRoute.Children, redirect)
  }

  /**
   * Once loading is over, exactly one of the two guards shows its children
   * and the other one navigates away.
   */
  lemma ExactlyOneGuardRenders(user: Option<Types.User>)
    ensures (Guard(false, user).view == PrivateRoute.Children) != (PrivateRoute.Guard(false, user).view == PrivateRoute.Children)
    ensures Guard(false, user).redirect.Some? != PrivateRoute.Guard(false, user).redirect.Some?
  {
  }

  /** While loading, both guards show the spinner and neither navigates. */
  lemma LoadingShowsSpinner(user: Option<Types.User>)
    ensures Guard(true, user) == PrivateRoute.Guard(true, user)
    ensures Guard(true, user).view == PrivateRoute.Spinner
  {
  }
}
