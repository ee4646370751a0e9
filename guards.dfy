/**
 * The access guards of middleware/auth.js: each looks at the session's user and
 * either lets the request through or redirects it.
 */
module Guards {
  import opened Wrappers

  /** The `req.session.user` object stored at login (routes/auth.js:75-82). */
  datatype SessionUser = SessionUser(
    id: int, name: string, surname: string, email: string, role: string, membership: string)

  datatype Decision = Next | Redirect(path: string)

  const LoginPath := "/auth/giris"
  const AccountPath := "/hesabim"
  const HomePath := "/"

  predicate IsAdminUser(user: Option<SessionUser>)
  {
    user.Some? && user.value.role == "admin"
  }

  /** `isAuthenticated`: through iff someone is logged in, else to the login page. */
  function IsAuthenticated(user: Option<SessionUser>): (d: Decision)
    ensures d.Next? <==> user.Some?
    ensures d.Redirect? ==> d.path == LoginPath
  {
    if user.Some? then Next else Redirect(LoginPath)
  }

  /** `isGuest`: logged-in users are sent to their account page. */
  function IsGuest(user: Option<SessionUser>): (d: Decision)
    ensures d.Next? <==> user.None?
    ensures d.Redirect? ==> d.path == AccountPath
  {
    if user.Some? then Redirect(AccountPath) else Next
  }

  /** `isAdmin`: through iff the user's role is exactly `admin`, else to the home page. */
  function IsAdmin(user: Option<SessionUser>): (d: Decision)
    ensures d.Next? <==> IsAdminUser(user)
    ensures d.Redirect? ==> d.path == HomePath
  {
    if IsAdminUser(user) then Next else Redirect(HomePath)
  }

  /** The template locals `loadUser` sets. */
  datatype Locals = Locals(user: Option<SessionUser>, isAuthenticated: bool, isAdmin: bool)

  /** `loadUser` never blocks a request. */
  function LoadUser(user: Option<SessionUser>): (r: (Locals, Decision))
    ensures r.1 == Next
    ensures r.0.user == user
    ensures r.0.isAuthenticated <==> user.Some?
    ensures r.0.isAdmin <==> IsAdminUser(user)
  {
    (Locals(user, user.Some?, IsAdminUser(user)), Next)
  }

  /** `isGuest` passes exactly the requests `isAuthenticated` stops. */
  lemma GuestIsComplement(user: Option<SessionUser>)
    ensures IsGuest(user).Next? <==> !IsAuthenticated(user).Next?
  {
  }

  /** Whatever passes `isAdmin` passes `isAuthenticated`, and the locals agree. */
  lemma AdminImpliesAuthenticated(user: Option<SessionUser>)
    ensures IsAdmin(user).Next? ==> IsAuthenticated(user).Next?
    ensures LoadUser(user).0.isAdmin ==> LoadUser(user).0.isAuthenticated
    ensures LoadUser(user).0.isAdmin <==> IsAdmin(user).Next?
  {
  }

  /** A role that is not exactly `admin` (another case included) is refused. */
  lemma AdminRoleIsExact(u: SessionUser)
    ensures IsAdmin(Some(u.(role := "Admin"))) == Redirect(HomePath)
  {
  }
}
