/**
 * The React front end's authentication provider (`lib/auth.tsx`).
 *
 * `AuthProvider` keeps a `loggingIn` flag and two persisted tokens: the login
 * token in `localStorage["login_token"]` and the session token in
 * `sessionStorage["session_token"]`. At mount, a one-shot effect renews the
 * session when only the login token is there; `login` exchanges a username and
 * password for tokens; `logout` clears both. `withAuth` redirects to the login
 * page when the user is neither authenticated nor renewing. The backend is
 * abstract: each request is recorded, and its outcome is an input.
 */
module ReactAuth {
  import opened Wrappers

  datatype SessionRequest =
    | UsernamePassword(username: string, password: string)
    | LoginTokenPayload(loginToken: string)

  /**
   * How a `createSession` call settles: with the JSON body of an `ok` response
   * (`loginToken` is `None` for JSON `null`), by throwing the text of a
   * non-`ok` response, or by `fetch` itself rejecting.
   */
  datatype Outcome =
    | Accepted(sessionToken: string, loginToken: Option<string>)
    | Refused(text: string)
    | Unreachable(message: string)

  /** A snapshot of the provider: its state, the two storage slots, and the requests sent so far. */
  datatype Provider = Provider(
    loggingIn: bool,
    loginToken: Option<string>,
    sessionToken: Option<string>,
    localLogin: Option<string>,
    sessionSlot: Option<string>,
    requests: seq<SessionRequest>)

  /** `authenticated: !!sessionToken`. */
  predicate Authenticated(p: Provider)
  {
    Truthy(p.sessionToken)
  }

  /** `renewingSession = !!loginToken && !sessionToken`. */
  predicate RenewingSession(p: Provider)
  {
    Truthy(p.loginToken) && !Truthy(p.sessionToken)
  }

  /** `withAuth`'s `redirect = !authenticated && !renewingSession`. */
  predicate Redirect(authenticated: bool, renewingSession: bool)
  {
    !authenticated && !renewingSession
  }

  /** A persisted setter: the in-memory value and its storage slot both take `v`. */
  function WithLogin(p: Provider, v: Option<string>): Provider
  {
    p.(loginToken := v, localLogin := v)
  }

  function WithSession(p: Provider, v: Option<string>): Provider
  {
    p.(sessionToken := v, sessionSlot := v)
  }

  /** Mount: both tokens are read from storage, then the effect renews the session when it should. */
  function Mounted(storedLogin: Option<string>, storedSession: Option<string>): Provider
  {
    var p := Provider(false, storedLogin, storedSession, storedLogin, storedSession, []);
    if RenewingSession(p) then p.(requests := [LoginTokenPayload(storedLogin.value)]) else p
  }

  /**
   * The renewal settles: on success the session token is set; on any failure
   * only the durable `login_token` key is removed, the in-memory token stays.
   */
  function RenewalSettled(p: Provider, outcome: Outcome): Provider
  {
    if outcome.Accepted? then WithSession(p, Some(outcome.sessionToken))
    else p.(localLogin := None)
  }

  /** `login` up to its `await`: `loggingIn` is raised and the credentials are sent. */
  function LoginBegun(p: Provider, username: string, password: string): Provider
  {
    p.(loggingIn := true, requests := p.requests + [UsernamePassword(username, password)])
  }

  /**
   * `login` after its `await`: on success the login token is stored when it is
   * a string, then the session token; `finally` lowers `loggingIn`; a failure
   * is rethrown.
   */
  function LoginEnded(p: Provider, outcome: Outcome): (Provider, Result<(), string>)
  {
    match outcome
    case Accepted(session, login) =>
      var p1 := if login.Some? then WithLogin(p, login) else p;
      (WithSession(p1, Some(session)).(loggingIn := false), Ok(()))
    case Refused(text) => (p.(loggingIn := false), Err(text))
    case Unreachable(message) => (p.(loggingIn := false), Err(message))
  }

  /** `logout`: both setters with `undefined`, then both storage keys removed. */
  function LoggedOut(p: Provider): Provider
  {
    WithSession(WithLogin(p, None), None).(localLogin := None, sessionSlot := None)
  }

  /** What can happen to a mounted provider. */
  datatype Event =
    | Login(username: string, password: string, outcome: Outcome)
    | Renewal(outcome: Outcome)
    | Logout

  function Step(p: Provider, e: Event): Provider
  {
    match e
    case Login(username, password, outcome) => LoginEnded(LoginBegun(p, username, password), outcome).0
    case Renewal(outcome) => RenewalSettled(p, outcome)
    case Logout => LoggedOut(p)
  }

  function Run(p: Provider, es: seq<Event>): Provider
    decreases |es|
  {
    if |es| == 0 then p else Run(Step(p, es[0]), es[1..])
  }

  /** The renewal requests among `rs`. */
  function Renewals(rs: seq<SessionRequest>): (n: nat)
    ensures n <= |rs|
  {
    if |rs| == 0 then 0
    else Renewals(rs[..|rs| - 1]) + (if rs[|rs| - 1].LoginTokenPayload? then 1 else 0)
  }

  // ---------------------------------------------------------------------------
  // The provider, as the component runs it.
  // ---------------------------------------------------------------------------

  class AuthProvider {
    var loggingIn: bool
    var loginToken: Option<string>
    var sessionToken: Option<string>
    var localLogin: Option<string>
    var sessionSlot: Option<string>
    var requests: seq<SessionRequest>

    function State(): Provider
      reads this
    {
      Provider(loggingIn, loginToken, sessionToken, localLogin, sessionSlot, requests)
    }

    /** Mount: the state hooks read storage; the effect with no dependencies runs once. */
    constructor (storedLogin: Option<string>, storedSession: Option<string>)
      ensures State() == Mounted(storedLogin, storedSession)
    {
      loggingIn := false;
      loginToken, sessionToken := storedLogin, storedSession;
      localLogin, sessionSlot := storedLogin, storedSession;
      requests := [];
      new;
      var renewingSession := Truthy(loginToken) && !Truthy(sessionToken);
      if renewingSession {
        requests := requests + [LoginTokenPayload(loginToken.value)];
      }
    }

    method SetLoginToken(v: Option<string>)
      modifies this
      ensures State() == WithLogin(old(State()), v)
    {
      loginToken := v;
      localLogin := v;
    }

    method SetSessionToken(v: Option<string>)
      modifies this
      ensures State() == WithSession(old(State()), v)
    {
      sessionToken := v;
      sessionSlot := v;
    }

    /** The `.then` / `.catch` of the mount-time renewal. */
    method SettleRenewal(outcome: Outcome)
      modifies this
      ensures State() == RenewalSettled(old(State()), outcome)
    {
      if outcome.Accepted? {
        SetSessionToken(Some(outcome.sessionToken));
      } else {
        localLogin := None;
      }
    }

    /** `login`: raise the flag, send the credentials, store the tokens, lower the flag whatever happened. */
    method Login(username: string, password: string, outcome: Outcome) returns (r: Result<(), string>)
      modifies this
      ensures (State(), r) == LoginEnded(LoginBegun(old(State()), username, password), outcome)
    {
      loggingIn := true;
      requests := requests + [UsernamePassword(username, password)];
      match outcome {
        case Accepted(session, login) =>
          if login.Some? {
            SetLoginToken(login);
          }
          SetSessionToken(Some(session));
          r := Ok(());
        case Refused(text) =>
          r := Err(text);
        case Unreachable(message) =>
          r := Err(message);
      }
      loggingIn := false;
    }

    method Logout()
      modifies this
      ensures State() == LoggedOut(old(State()))
    {
      SetLoginToken(None);
      SetSessionToken(None);
      localLogin := None;
      sessionSlot := None;
    }
  }

  // ---------------------------------------------------------------------------
  // Properties of the provider.
  // ---------------------------------------------------------------------------

  /** `withAuth` redirects exactly when there is neither a session token nor a login token. */
  lemma RedirectIff(p: Provider)
    ensures Redirect(Authenticated(p), RenewingSession(p)) <==> !Truthy(p.sessionToken) && !Truthy(p.loginToken)
  {
  }

  /** At mount a renewal is sent, once, exactly when only the login token is stored. */
  lemma MountRenewal(storedLogin: Option<string>, storedSession: Option<string>)
    ensures var p := Mounted(storedLogin, storedSession);
      Renewals(p.requests) == |p.requests| <= 1
      && (|p.requests| == 1 <==> Truthy(storedLogin) && !Truthy(storedSession))
      && p.loginToken == storedLogin && p.sessionToken == storedSession && !p.loggingIn
  {
    var p := Mounted(storedLogin, storedSession);
    if |p.requests| == 1 {
      assert p.requests[..0] == [];
    }
  }

  lemma {:induction false} RenewalsAppend(rs: seq<SessionRequest>, r: SessionRequest)
    ensures Renewals(rs + [r]) == Renewals(rs) + (if r.LoginTokenPayload? then 1 else 0)
  {
    assert (rs + [r])[..|rs|] == rs;
  }

  /** Nothing after mount sends another renewal: logins send credentials, the rest sends nothing. */
  lemma {:induction false} NoLaterRenewal(p: Provider, es: seq<Event>)
    ensures Renewals(Run(p, es).requests) == Renewals(p.requests)
    decreases |es|
  {
    if |es| > 0 {
      var t := Step(p, es[0]);
      assert Renewals(t.requests) == Renewals(p.requests) by {
        if es[0].Login? {
          RenewalsAppend(p.requests, UsernamePassword(es[0].username, es[0].password));
        }
      }
      NoLaterRenewal(t, es[1..]);
    }
  }

  /** Renewal is attempted at most once per mount, whatever happens afterwards. */
  lemma RenewalAtMostOnce(storedLogin: Option<string>, storedSession: Option<string>, es: seq<Event>)
    ensures Renewals(Run(Mounted(storedLogin, storedSession), es).requests) <= 1
    ensures Renewals(Run(Mounted(storedLogin, storedSession), es).requests) == 1
      <==> Truthy(storedLogin) && !Truthy(storedSession)
  {
    MountRenewal(storedLogin, storedSession);
    NoLaterRenewal(Mounted(storedLogin, storedSession), es);
  }

  /**
   * A failed renewal removes only the durable login token; the in-memory one
   * stays, so the provider still reports `renewingSession` and `withAuth` does
   * not redirect.
   */
  lemma FailedRenewalKeepsMemory(p: Provider, outcome: Outcome)
    requires !outcome.Accepted? && RenewingSession(p)
    ensures var t := RenewalSettled(p, outcome);
      t.localLogin == None && t.loginToken == p.loginToken && t.sessionToken == p.sessionToken
      && RenewingSession(t) && !Redirect(Authenticated(t), RenewingSession(t))
  {
  }

  /** A successful renewal sets the session token; a non-empty one authenticates. */
  lemma RenewalSetsSession(p: Provider, session: string, login: Option<string>)
    ensures var t := RenewalSettled(p, Accepted(session, login));
      t.sessionToken == Some(session) && t.sessionSlot == Some(session) && t.loginToken == p.loginToken
      && (Authenticated(t) <==> session != "")
  {
  }

  /**
   * `loggingIn` is raised while the request is out and lowered after it, on
   * success and failure alike. Success stores the session token, and the login
   * token only when it is a string; failure rethrows and changes no token.
   */
  lemma LoginFlag(p: Provider, username: string, password: string, outcome: Outcome)
    ensures LoginBegun(p, username, password).loggingIn
    ensures var (t, r) := LoginEnded(LoginBegun(p, username, password), outcome);
      !t.loggingIn
      && t.requests == p.requests + [UsernamePassword(username, password)]
      && (r.Ok? <==> outcome.Accepted?)
      && (outcome.Accepted? ==>
            t.sessionToken == Some(outcome.sessionToken) && t.sessionSlot == Some(outcome.sessionToken)
            && t.loginToken == (if outcome.loginToken.Some? then outcome.loginToken else p.loginToken))
      && (!outcome.Accepted? ==>
            t.loginToken == p.loginToken && t.sessionToken == p.sessionToken
            && t.localLogin == p.localLogin && t.sessionSlot == p.sessionSlot)
  {
  }

  /** `logout` clears both tokens and both keys, after which `withAuth` redirects. */
  lemma LogoutClears(p: Provider)
    ensures var t := LoggedOut(p);
      t.loginToken == None && t.sessionToken == None && t.localLogin == None && t.sessionSlot == None
      && t.requests == p.requests && Redirect(Authenticated(t), RenewingSession(t))
  {
  }
}
