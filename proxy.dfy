/** The route guard: the `auth` callback that sends a visitor without a session to the
    sign-in page, sends a signed-in visitor away from the sign-in page, and lets everything
    else through; and the path matcher that decides which requests it runs on. */
module Proxy {
  import opened Wrappers
  import opened JsString

  /** What the guard reads from a request: whether there is a session (`!!req.auth`), and
      the origin, path and full text (`href`) of the requested URL. */
  datatype Request = Request(isLoggedIn: bool, origin: string, pathname: string, href: string)

  /** A URL the guard builds: an origin, a path, and the query parameters in order. */
  datatype Url = Url(origin: string, pathname: string, query: seq<(string, string)>)

  datatype Outcome = Redirect(location: Url) | PassThrough

  const SignInPath: string := "/login"
  const DashboardPath: string := "/dashboard"
  const CallbackParam: string := "callbackUrl"

  /** `new URL(path, origin)` for an absolute path: that path on that origin, no query. */
  function Resolve(path: string, origin: string): Url {
    Url(origin, path, [])
  }

  /** `URLSearchParams.get`: the value of the first pair with that name. */
  function GetParam(query: seq<(string, string)>, name: string): Option<string> {
    if query == [] then None
    else if query[0].0 == name then Some(query[0].1)
    else GetParam(query[1..], name)
  }

  /** The pairs not named `name`, in order. */
  function RemoveParam(query: seq<(string, string)>, name: string): (r: seq<(string, string)>)
    ensures |r| <= |query|
    ensures GetParam(r, name) == None
    ensures forall other :: other != name ==> GetParam(r, other) == GetParam(query, other)
  {
    if query == [] then []
    else if query[0].0 == name then RemoveParam(query[1..], name)
    else [query[0]] + RemoveParam(query[1..], name)
  }

  /** `URLSearchParams.set`: the first pair with that name takes the new value and the later
      ones are dropped; without such a pair, the pair is appended. */
  function SetParam(query: seq<(string, string)>, name: string, value: string): (r: seq<(string, string)>)
    ensures |r| <= |query| + 1
    ensures (name, value) in r
  {
    if query == [] then [(name, value)]
    else if query[0].0 == name then [(name, value)] + RemoveParam(query[1..], name)
    else [query[0]] + SetParam(query[1..], name, value)
  }

  /** After `set`, `get` of that name reads the new value, and every other name reads what
      it read before. */
  lemma {:induction false} SetParamThenGet(query: seq<(string, string)>, name: string, value: string, other: string)
    ensures GetParam(SetParam(query, name, value), name) == Some(value)
    ensures other != name ==> GetParam(SetParam(query, name, value), other) == GetParam(query, other)
    decreases |query|
  {
    if query != [] && query[0].0 != name {
      SetParamThenGet(query[1..], name, value, other);
    }
  }

  /** The `auth` callback. Every redirect stays on the request's origin, and goes to the
      sign-in page exactly when there is no session. */
  function Guard(req: Request): (r: Outcome)
    ensures r.Redirect? ==> r.location.origin == req.origin
    ensures r.Redirect? ==> (r.location.pathname == SignInPath <==> !req.isLoggedIn)
  {
    if !req.isLoggedIn && req.pathname != SignInPath then
      var signIn := Resolve(SignInPath, req.origin);
      Redirect(signIn.(query := SetParam(signIn.query, CallbackParam, req.href)))
    else if req.isLoggedIn && req.pathname == SignInPath then
      Redirect(Resolve(DashboardPath, req.origin))
    else
      PassThrough
  }

  /** The guard redirects exactly when being signed in and being on the sign-in page agree:
      a visitor without a session anywhere but there, or a signed-in one right there. */
  lemma {:induction false} GuardRedirectsIff(req: Request)
    ensures Guard(req).Redirect? <==> (req.isLoggedIn <==> req.pathname == SignInPath)
  {
  }

  /** A visitor without a session, away from the sign-in page, is sent to the sign-in page of
      the same origin, and the only query parameter there carries the requested `href`. */
  lemma {:induction false} GuardSendsToSignIn(req: Request)
    requires !req.isLoggedIn && req.pathname != SignInPath
    ensures Guard(req).Redirect?
    ensures var to := Guard(req).location;
            to.origin == req.origin && to.pathname == SignInPath && |to.query| == 1 &&
            GetParam(to.query, CallbackParam) == Some(req.href)
  {
    SetParamThenGet([], CallbackParam, req.href, CallbackParam);
  }

  /** A signed-in visitor on the sign-in page is sent to the dashboard of the same origin. */
  lemma {:induction false} GuardSendsToDashboard(req: Request)
    requires req.isLoggedIn && req.pathname == SignInPath
    ensures Guard(req) == Redirect(Url(req.origin, DashboardPath, []))
  {
  }

  /** Following a redirect with the same session is let through, whatever the new URL's
      text: the guard never sends a visitor round in a loop. */
  lemma {:induction false} GuardNoLoop(req: Request, href: string)
    requires Guard(req).Redirect?
    ensures var to := Guard(req).location;
            Guard(Request(req.isLoggedIn, to.origin, to.pathname, href)) == PassThrough
  {
  }

  /** The alternatives of the matcher's negative look-ahead, in order. */
  const Excluded: seq<string> := ["api/auth", "_next/static", "_next/image", "images", "favicon.ico", "login"]

  /** One pattern character against one path character: a regular-expression `.` matches
      anything but a line terminator; every other pattern character stands for itself. */
  predicate CharMatches(p: char, c: char) {
    if p == '.' then !IsLineTerminator(c) else p == c
  }

  /** The pattern matches at the very start of `s`. */
  predicate PatternPrefix(pattern: string, s: string) {
    |pattern| <= |s| && forall i :: 0 <= i < |pattern| ==> CharMatches(pattern[i], s[i])
  }

  /** The sign-in page's text after `/` begins with the excluded alternative `login`. */
  lemma {:induction false} LoginExcluded()
    ensures SignInPath[1..] == Excluded[5] && PatternPrefix(Excluded[5], SignInPath[1..])
  {
  }

  /** `config.matcher`, `/((?!api/auth|_next/static|_next/image|images|favicon.ico|login).*)`:
      a path starting with `/` whose remainder starts with none of the alternatives and
      holds no line terminator (which `.*` cannot cross). */
  predicate Matches(pathname: string)
    ensures Matches(pathname) ==> pathname != SignInPath
  {
    LoginExcluded();
    |pathname| >= 1 && pathname[0] == '/' &&
    (forall i :: 0 <= i < |Excluded| ==> !PatternPrefix(Excluded[i], pathname[1..])) &&
    (forall i :: 1 <= i < |pathname| ==> !IsLineTerminator(pathname[i]))
  }

  /** The guard as deployed: it runs only on the paths the matcher selects. */
  function Proxy(req: Request): (r: Outcome)
    ensures r.Redirect? ==> r.location.pathname == SignInPath && r.location.origin == req.origin
  {
    if Matches(req.pathname) then Guard(req) else PassThrough
  }

  /** Every path whose remainder after `/` begins with an excluded alternative is skipped. */
  lemma {:induction false} MatcherSkipsExcluded(i: int, rest: string)
    requires 0 <= i < |Excluded|
    ensures !Matches("/" + Excluded[i] + rest)
  {
    var p := "/" + Excluded[i] + rest;
    assert p[1..] == Excluded[i] + rest;
    PatternMatchesItself(Excluded[i], rest);
  }

  /** A pattern without line terminators matches its own text. */
  lemma {:induction false} PatternMatchesItself(pattern: string, rest: string)
    requires forall j :: 0 <= j < |pattern| ==> !IsLineTerminator(pattern[j])
    ensures PatternPrefix(pattern, pattern + rest)
  {
    forall j | 0 <= j < |pattern| ensures CharMatches(pattern[j], (pattern + rest)[j]) {
      assert (pattern + rest)[j] == pattern[j];
    }
  }

  /** The sign-in page itself is never guarded. */
  lemma {:induction false} MatcherSkipsSignIn()
    ensures !Matches(SignInPath)
  {
    MatcherSkipsExcluded(5, "");
    assert "/" + Excluded[5] + "" == SignInPath;
  }

  /** The `.` of `favicon.ico` is a wildcard: any path of that shape, with any character
      but a line terminator in its place, is skipped as well. */
  lemma {:induction false} MatcherDotIsWildcard(c: char, rest: string)
    requires !IsLineTerminator(c)
    ensures !Matches("/favicon" + [c] + "ico" + rest)
  {
    var p := "/favicon" + [c] + "ico" + rest;
    assert p[1..] == "favicon" + [c] + "ico" + rest;
    assert Excluded[4] == "favicon.ico";
    assert PatternPrefix(Excluded[4], p[1..]);
  }

  /** The matcher selects the root and every other path outside the excluded alternatives,
      the dashboard among them. */
  lemma {:induction false} MatcherGuardsDashboard()
    ensures Matches("/") && Matches(DashboardPath)
  {
    forall i | 0 <= i < |Excluded| ensures !PatternPrefix(Excluded[i], "dashboard") {
      assert !CharMatches(Excluded[i][0], 'd');
    }
    assert DashboardPath[1..] == "dashboard";
  }

  /** Since the sign-in page is never guarded, the deployed guard only ever redirects a
      visitor without a session, on a guarded path, to the sign-in page: the redirect of a
      signed-in visitor to the dashboard cannot happen. */
  lemma {:induction false} ProxyRedirectsOnlyToSignIn(req: Request)
    ensures Proxy(req).Redirect? <==> !req.isLoggedIn && Matches(req.pathname)
    ensures Proxy(req).Redirect? ==> Proxy(req).location.pathname == SignInPath
  {
    MatcherSkipsSignIn();
  }
}
