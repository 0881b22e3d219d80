/** The access check of the admin views: `dispatch` on the base view,
    which sends users who are not staff to the login route unless the view
    opts out, then picks the handler for the request method; and the
    `admin_only` wrapper for plain API functions, which applies the same
    check with no way to opt out. */
module Access {
  import opened Wrappers
  import opened Text

  /** The fields of the request's user that the check reads: the primary
      key, absent for the anonymous user, and the staff flag. */
  datatype User = User(id: Option<int>, isStaff: bool)

  /** A request as the check sees it: its user and its HTTP method, as sent. */
  datatype Request = Request(user: User, httpMethod: string)

  /** The route name that users who fail the check are sent to. */
  const LoginRoute := "adminlte.login"

  /** Where `dispatch` sends a request: to the login route, to the
      method-not-allowed response, or to the handler of the given name. */
  datatype Decision = Redirect(route: string) | MethodNotAllowed | Handler(name: string)

  /** What `dispatch` needs of a view: its `login_required` attribute
      (true when the view does not set it), its `http_method_names`, and
      the names of the handler methods it defines. */
  datatype ViewConfig = ViewConfig(loginRequired: bool, httpMethodNames: seq<string>, handlers: set<string>)

  /** The method names a view accepts unless it says otherwise. */
  const DefaultMethodNames: seq<string> := ["get", "post", "put", "patch", "delete", "head", "options", "trace"]

  /** `request.user.id` is truthy: present and not zero. */
  predicate HasId(u: User) {
    match u.id
    case None => false
    case Some(i) => i != 0
  }

  /** The user passes the check: `not user.id or not user.is_staff` is
      false. */
  predicate IsAdmin(u: User) {
    HasId(u) && u.isStaff
  }

  /** `dispatch`: the login check first, when the view asks for it; then
      the lower-cased method selects a handler when it is an accepted
      method name and the view defines a method of that name. */
  function Dispatch(view: ViewConfig, req: Request): (d: Decision)
    ensures d.Redirect? <==> view.loginRequired && !IsAdmin(req.user)
    ensures d.Redirect? ==> d.route == LoginRoute
    ensures d.Handler? <==>
      (!view.loginRequired || IsAdmin(req.user)) &&
      LowerString(req.httpMethod) in view.httpMethodNames && LowerString(req.httpMethod) in view.handlers
    ensures d.Handler? ==> d.name == LowerString(req.httpMethod) && NoUpper(d.name)
  {
    if view.loginRequired && !IsAdmin(req.user) then Redirect(LoginRoute)
    else
      var m := LowerString(req.httpMethod);
      if m in view.httpMethodNames && m in view.handlers then Handler(m)
      else MethodNotAllowed
  }

  /** The outcome of a wrapped API function: the login redirect, or the
      function's own return value. */
  datatype Guarded<R> = Redirected(route: string) | Passed(value: R)

  /** `admin_only(api)` applied to a request and the further arguments
      `args` of the call, which are handed on to `api` as they are. */
  function AdminOnly<A, R>(api: (Request, A) -> R, req: Request, args: A): (r: Guarded<R>)
    ensures r.Passed? <==> IsAdmin(req.user)
    ensures r.Redirected? ==> r.route == LoginRoute
    ensures r.Passed? ==> r.value == api(req, args)
  {
    if !IsAdmin(req.user) then Redirected(LoginRoute) else Passed(api(req, args))
  }

  /** The HTTP method is matched without regard to case. */
  lemma DispatchIgnoresCase(view: ViewConfig, u: User, m: string)
    ensures Dispatch(view, Request(u, m)) == Dispatch(view, Request(u, LowerString(m)))
  {
    LowerStringIdempotent(m);
  }

  /** A view that opts out of the login check never redirects, and for an
      admin user the check makes no difference. */
  lemma DispatchOptOut(view: ViewConfig, req: Request)
    ensures !view.loginRequired ==> !Dispatch(view, req).Redirect?
    ensures IsAdmin(req.user) ==>
      Dispatch(view, req) == Dispatch(view.(loginRequired := !view.loginRequired), req)
  {
  }

  /** The wrapper and a view that keeps the login check turn away exactly
      the same requests, to the same route. */
  lemma AdminOnlyMatchesDispatch<A, R>(api: (Request, A) -> R, args: A, view: ViewConfig, req: Request)
    requires view.loginRequired
    ensures AdminOnly(api, req, args).Redirected? <==> Dispatch(view, req).Redirect?
    ensures AdminOnly(api, req, args).Redirected? ==> AdminOnly(api, req, args).route == Dispatch(view, req).route
  {
  }

  /** A user without a primary key, such as the anonymous user, or with the
      key 0 is turned away however the staff flag is set. */
  lemma NoIdNoAccess(view: ViewConfig, staff: bool, m: string)
    requires view.loginRequired
    ensures Dispatch(view, Request(User(None, staff), m)) == Redirect(LoginRoute)
    ensures Dispatch(view, Request(User(Some(0), staff), m)) == Redirect(LoginRoute)
  {
  }

  /** On a view with the default method names that defines only `get`, an
      admin's `GET` reaches the handler and a `POST` is not allowed. */
  lemma DefaultViewExample(u: User, view: ViewConfig)
    requires IsAdmin(u) && view == ViewConfig(true, DefaultMethodNames, {"get"})
    ensures Dispatch(view, Request(u, "GET")) == Handler("get")
    ensures Dispatch(view, Request(u, "POST")) == MethodNotAllowed
  {
    assert LowerString("GET") == "get";
    assert LowerString("POST") == "post";
  }
}
