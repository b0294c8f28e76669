/**
 * `PrivateRoute`: what the guard renders and where it navigates, given the
 * authentication state's `isLoading` flag and its user.
 */
module PrivateRoute {
  import opened Wrappers
  import Types

  /** The page spinner, `null`, or the guarded children. */
  datatype View = Spinner | Nothing | Children

  /** The rendered view and the path the effect navigates to, if any. */
  datatype GuardOutcome = GuardOutcome(view: View, redirect: Option<string>)

  const LoginPath := "/login"

  function Guard(isLoading: bool, user: Option<Types.User>): (r: GuardOutcome)
    ensures isLoading ==> r == GuardOutcome(Spinner, None)
    ensures !isLoading && user.None? ==> r.view == Nothing && r.redirect == Some(LoginPath)
    ensures !isLoading && user.Some? ==> r.view == Children && r.redirect == None
    ensures r.view == Children <==> !isLoading && user.Some?
    ensures r.redirect.Some? <==> !isLoading && user.None?
  {
    var redirect := if !isLoading && user.None? then Some(LoginPath) else None;
    if isLoading then GuardOutcome(Spinner, redirect)
    else if user.None? then GuardOutcome(Nothing, redirect)
    else GuardOutcome(Children, redirect)
  }
}
