/**
 The page guard: once the session has been restored it redirects visitors
 without a session to the login page and users whose role the page does not
 admit to the home page, and it shows the page only to admitted users.
 */
module AuthGuard {
  import opened Options
  import opened Types

  datatype Route = LoginRoute | HomeRoute

  /** What one evaluation of the guard does: at most one redirect, and whether the page is shown. */
  datatype Decision = Decision(redirect: Option<Route>, showsChildren: bool)

  /**
   The role list the page admits. A present list admits exactly its members,
   so an empty list admits nobody; an absent list admits every role.
   */
  predicate Admits(allowedRoles: Option<seq<Role>>, role: Role) {
    allowedRoles.None? || role in allowedRoles.value
  }

  /** The redirect the guard's effect issues. */
  function Redirect(hydrated: bool, user: Option<User>, allowedRoles: Option<seq<Role>>): Option<Route> {
    if !hydrated then None
    else if user.None? then Some(LoginRoute)
    else if allowedRoles.Some? && user.value.role !in allowedRoles.value then Some(HomeRoute)
    else None
  }

  /** Whether the guard renders the page rather than the loading placeholder. */
  function ShowsChildren(hydrated: bool, user: Option<User>, allowedRoles: Option<seq<Role>>): bool {
    !(!hydrated || user.None? || (allowedRoles.Some? && user.Some? && user.value.role !in allowedRoles.value))
  }

  /** The guard's decision: the effect's redirect together with the render choice. */
  function Guard(hydrated: bool, user: Option<User>, allowedRoles: Option<seq<Role>>): (d: Decision)
    ensures d.showsChildren <==> hydrated && user.Some? && Admits(allowedRoles, user.value.role)
    ensures d.showsChildren <==> hydrated && d.redirect.None?
    ensures !hydrated ==> d.redirect.None? && !d.showsChildren
    ensures hydrated && user.None? ==> d.redirect == Some(LoginRoute)
    ensures hydrated && user.Some? && !Admits(allowedRoles, user.value.role) ==> d.redirect == Some(HomeRoute)
  {
    Decision(Redirect(hydrated, user, allowedRoles), ShowsChildren(hydrated, user, allowedRoles))
  }

  /** Without a role list, every signed-in user gets the page. */
  lemma AnySignedInUserPassesOpenGuard(user: User)
    ensures Guard(true, Some(user), None) == Decision(None, true)
  {
  }

  /** A missing session sends to the login page whatever the role list says. */
  lemma MissingUserTakesPrecedence(allowedRoles: Option<seq<Role>>)
    ensures Guard(true, None, allowedRoles).redirect == Some(LoginRoute)
    ensures Guard(true, None, Some([])).redirect == Some(LoginRoute)
  {
  }

  /** A present but empty role list shuts every signed-in user out. */
  lemma EmptyRoleListAdmitsNobody(user: User)
    ensures Guard(true, Some(user), Some([])) == Decision(Some(HomeRoute), false)
  {
  }
}
