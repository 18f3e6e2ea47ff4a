/**
 * The Svelte front end's session-token stores (`src/lib/auth.ts`).
 *
 * Three writable stores (`loginToken`, `sessionToken`, `authenticating`) and
 * the derived `authenticated`. Two subscribers mirror the token stores into
 * `localStorage["login_token"]` and `sessionStorage["session_token"]`; a third,
 * on the derived pair, starts a session renewal whenever a login token exists
 * without a session token. `createSession` is split at its `await`: the part
 * before it raises `authenticating` and sends the request, the part after it
 * handles the response. The backend is abstract: a request is recorded, and
 * its response is an input.
 */
module SvelteAuth {
  import opened Wrappers

  /** The two request shapes `createSession` accepts. */
  datatype SessionRequest =
    | UsernamePassword(username: string, password: string)
    | LoginTokenPayload(loginToken: string)

  /** The response to `POST /auth/session`: a JSON body when `ok`, otherwise its text. */
  datatype SessionResponse =
    | Accepted(sessionToken: string, loginToken: Option<string>)
    | Refused(text: string)

  /**
   * A snapshot of the stores, the two storage slots, and the requests sent so
   * far; `browser` is false during server-side rendering, where storage is not touched.
   */
  datatype Stores = Stores(
    browser: bool,
    loginToken: Option<string>,
    sessionToken: Option<string>,
    authenticating: bool,
    localLogin: Option<string>,
    sessionSlot: Option<string>,
    requests: seq<SessionRequest>)

  /** What a storage subscriber leaves in its slot for store value `v`: `v` when truthy, else the key is removed. */
  function Mirror(v: Option<string>): (slot: Option<string>)
    ensures slot.Some? <==> Truthy(v)
    ensures slot.Some? ==> slot == v
  {
    if Truthy(v) then v else None
  }

  /** In a browser, each storage slot holds the mirror of its store. */
  predicate Mirrored(s: Stores)
  {
    s.browser ==> s.localLogin == Mirror(s.loginToken) && s.sessionSlot == Mirror(s.sessionToken)
  }

  /** The state in which the renewal subscriber starts a session: a login token and no session token. */
  predicate NeedsRenewal(s: Stores)
  {
    Truthy(s.loginToken) && !Truthy(s.sessionToken)
  }

  /** The derived `authenticated` store. */
  predicate Authenticated(s: Stores)
  {
    Truthy(s.sessionToken)
  }

  /** `createSession` up to its `await`: `authenticating` is raised and the request is sent. */
  function Started(s: Stores, data: SessionRequest): Stores
  {
    s.(authenticating := true, requests := s.requests + [data])
  }

  /** The renewal subscriber, run on every emission of the derived pair. */
  function Renewed(s: Stores): Stores
  {
    if NeedsRenewal(s) then Started(s, LoginTokenPayload(s.loginToken.value)) else s
  }

  /** The `loginToken` storage subscriber. */
  function LoginStored(s: Stores): Stores
  {
    if s.browser then s.(localLogin := Mirror(s.loginToken)) else s
  }

  /** The `sessionToken` storage subscriber. */
  function SessionStored(s: Stores): Stores
  {
    if s.browser then s.(sessionSlot := Mirror(s.sessionToken)) else s
  }

  /**
   * `loginToken.set(v)`: a store only notifies when its value changes; then its
   * storage subscriber runs, then the renewal subscriber on the derived pair.
   */
  function WithLogin(s: Stores, v: Option<string>): Stores
  {
    if v == s.loginToken then s else Renewed(LoginStored(s.(loginToken := v)))
  }

  /** `sessionToken.set(v)`, in the same way. */
  function WithSession(s: Stores, v: Option<string>): Stores
  {
    if v == s.sessionToken then s else Renewed(SessionStored(s.(sessionToken := v)))
  }

  /**
   * `createSession` after its `await`: a refusal lowers `authenticating` and
   * throws the body text; an acceptance sets the session token, then the login
   * token when the response carries a truthy one, then lowers `authenticating`.
   */
  function Responded(s: Stores, res: SessionResponse): (Stores, Result<(), string>)
  {
    match res
    case Refused(text) => (s.(authenticating := false), Err(text))
    case Accepted(sessionToken, loginToken) =>
      var s1 := WithSession(s, Some(sessionToken));
      var s2 := if Truthy(loginToken) then WithLogin(s1, loginToken) else s1;
      (s2.(authenticating := false), Ok(()))
  }

  /** `logout`: the login token is cleared first, then the session token. */
  function LoggedOut(s: Stores): Stores
  {
    WithSession(WithLogin(s, None), None)
  }

  /**
   * Module initialisation: the token stores start from storage (or null when
   * not in a browser), and each `subscribe` runs its subscriber once at once.
   */
  function Initial(browser: bool, storedLogin: Option<string>, storedSession: Option<string>): Stores
  {
    var s := Stores(browser, if browser then storedLogin else None, if browser then storedSession else None,
                    false, storedLogin, storedSession, []);
    Renewed(SessionStored(LoginStored(s)))
  }

  /** One thing that can happen to the stores. */
  datatype Event =
    | SetLogin(v: Option<string>)
    | SetSession(v: Option<string>)
    | Request(data: SessionRequest)
    | Response(res: SessionResponse)
    | Logout

  function Step(s: Stores, e: Event): Stores
  {
    match e
    case SetLogin(v) => WithLogin(s, v)
    case SetSession(v) => WithSession(s, v)
    case Request(data) => Started(s, data)
    case Response(res) => Responded(s, res).0
    case Logout => LoggedOut(s)
  }

  /** The stores after a sequence of events, in order. */
  function Run(s: Stores, es: seq<Event>): Stores
    decreases |es|
  {
    if |es| == 0 then s else Run(Step(s, es[0]), es[1..])
  }

  predicate NoResponse(es: seq<Event>)
  {
    forall k :: 0 <= k < |es| ==> !es[k].Response?
  }

  // ---------------------------------------------------------------------------
  // The stores, as the module runs them.
  // ---------------------------------------------------------------------------

  class AuthStores {
    var browser: bool
    var loginToken: Option<string>
    var sessionToken: Option<string>
    var authenticating: bool
    var localLogin: Option<string>
    var sessionSlot: Option<string>
    var requests: seq<SessionRequest>

    function State(): Stores
      reads this
    {
      Stores(browser, loginToken, sessionToken, authenticating, localLogin, sessionSlot, requests)
    }

    /** Module initialisation: read the stored tokens, then subscribe the three subscribers. */
    constructor (browser: bool, storedLogin: Option<string>, storedSession: Option<string>)
      ensures State() == Initial(browser, storedLogin, storedSession)
    {
      this.browser := browser;
      loginToken := if browser then storedLogin else None;
      sessionToken := if browser then storedSession else None;
      authenticating := false;
      localLogin, sessionSlot := storedLogin, storedSession;
      requests := [];
      new;
      StoreLogin();
      StoreSession();
      RenewalSubscriber();
    }

    /** The `loginToken` subscriber: write a truthy value, otherwise remove the key. */
    method StoreLogin()
      modifies this
      ensures State() == LoginStored(old(State()))
    {
      if browser {
        if Truthy(loginToken) {
          localLogin := loginToken;
        } else {
          localLogin := None;
        }
      }
    }

    /** The `sessionToken` subscriber. */
    method StoreSession()
      modifies this
      ensures State() == SessionStored(old(State()))
    {
      if browser {
        if Truthy(sessionToken) {
          sessionSlot := sessionToken;
        } else {
          sessionSlot := None;
        }
      }
    }

    /** The subscriber on `[loginToken, sessionToken]`: renew when only the login token is there. */
    method RenewalSubscriber()
      modifies this
      ensures State() == Renewed(old(State()))
    {
      if Truthy(loginToken) && !Truthy(sessionToken) {
        CreateSession(LoginTokenPayload(loginToken.value));
      }
    }

    /** `createSession` up to its `await`. */
    method CreateSession(data: SessionRequest)
      modifies this
      ensures State() == Started(old(State()), data)
    {
      authenticating := true;
      requests := requests + [data];
    }

    /** `createSession` once the response has arrived; `Err` carries the thrown text. */
    method FinishSession(res: SessionResponse) returns (r: Result<(), string>)
      modifies this
      ensures (State(), r) == Responded(old(State()), res)
    {
      match res {
        case Refused(text) =>
          authenticating := false;
          return Err(text);
        case Accepted(session, login) =>
          SetSessionToken(Some(session));
          if Truthy(login) {
            SetLoginToken(login);
          }
          authenticating := false;
          return Ok(());
      }
    }

    method SetLoginToken(v: Option<string>)
      modifies this
      ensures State() == WithLogin(old(State()), v)
    {
      if v != loginToken {
        loginToken := v;
        StoreLogin();
        RenewalSubscriber();
      }
    }

    method SetSessionToken(v: Option<string>)
      modifies this
      ensures State() == WithSession(old(State()), v)
    {
      if v != sessionToken {
        sessionToken := v;
        StoreSession();
        RenewalSubscriber();
      }
    }

    /** `logout`: login token first, so that no emission ever shows a login token without a session token. */
    method Logout()
      modifies this
      ensures State() == LoggedOut(old(State()))
    {
      SetLoginToken(None);
      SetSessionToken(None);
    }
  }

  // ---------------------------------------------------------------------------
  // Properties of the stores.
  // ---------------------------------------------------------------------------

  /** Once the subscribers have run, each storage slot mirrors its store. */
  lemma InitialMirrored(browser: bool, storedLogin: Option<string>, storedSession: Option<string>)
    ensures Mirrored(Initial(browser, storedLogin, storedSession))
    ensures Initial(browser, storedLogin, storedSession).requests ==
      if browser && NeedsRenewal(Stores(browser, storedLogin, storedSession, false, None, None, []))
      then [LoginTokenPayload(storedLogin.value)] else []
  {
  }

  /** Every event keeps the slots mirroring the stores. */
  lemma {:induction false} StepMirrored(s: Stores, e: Event)
    requires Mirrored(s)
    ensures Mirrored(Step(s, e))
  {
    match e
    case Response(res) =>
      if res.Accepted? {
        var s1 := WithSession(s, Some(res.sessionToken));
        assert Mirrored(s1);
        assert Mirrored(if Truthy(res.loginToken) then WithLogin(s1, res.loginToken) else s1);
      }
    case Logout =>
      assert Mirrored(WithLogin(s, None));
    case _ =>
  }

  /** Whatever happens, the storage slots mirror the token stores. */
  lemma {:induction false} RunMirrored(s: Stores, es: seq<Event>)
    requires Mirrored(s)
    ensures Mirrored(Run(s, es))
    decreases |es|
  {
    if |es| > 0 {
      StepMirrored(s, es[0]);
      RunMirrored(Step(s, es[0]), es[1..]);
    }
  }

  /** The requests sent are only ever appended to. */
  lemma {:induction false} RunRequestsGrow(s: Stores, es: seq<Event>)
    ensures s.requests <= Run(s, es).requests
    decreases |es|
  {
    if |es| > 0 {
      var t := Step(s, es[0]);
      assert s.requests <= t.requests by {
        match es[0]
        case Response(res) =>
          if res.Accepted? {
            var s1 := WithSession(s, Some(res.sessionToken));
            assert s.requests <= s1.requests;
          }
        case Logout =>
          assert s.requests <= WithLogin(s, None).requests;
        case _ =>
      }
      RunRequestsGrow(t, es[1..]);
    }
  }

  /**
   * Setting the login token sends a renewal request exactly when the value
   * changes to a truthy one while there is no session token; a request already
   * in flight does not prevent it.
   */
  lemma SetLoginRenews(s: Stores, v: Option<string>)
    ensures WithLogin(s, v).requests ==
      if v != s.loginToken && Truthy(v) && !Truthy(s.sessionToken)
      then s.requests + [LoginTokenPayload(v.value)] else s.requests
    ensures WithLogin(s, v).requests != s.requests ==> WithLogin(s, v).authenticating
  {
  }

  /** Setting the session token sends a renewal request exactly when it changes to a falsy value under a truthy login token. */
  lemma SetSessionRenews(s: Stores, v: Option<string>)
    ensures WithSession(s, v).requests ==
      if v != s.sessionToken && !Truthy(v) && Truthy(s.loginToken)
      then s.requests + [LoginTokenPayload(s.loginToken.value)] else s.requests
  {
  }

  /**
   * No single-flight guard: two different login tokens set one after the other,
   * with no session token, send two renewal requests although the first is still
   * in flight.
   */
  lemma NoSingleFlight(s: Stores, a: string, b: string)
    requires !Truthy(s.sessionToken) && a != "" && b != "" && a != b && Some(a) != s.loginToken
    ensures WithLogin(WithLogin(s, Some(a)), Some(b)).requests ==
      s.requests + [LoginTokenPayload(a), LoginTokenPayload(b)]
  {
    SetLoginRenews(s, Some(a));
    SetLoginRenews(WithLogin(s, Some(a)), Some(b));
  }

  /** A refused request lowers `authenticating`, throws the body text and touches neither token nor slot. */
  lemma RefusedKeepsTokens(s: Stores, text: string)
    ensures var (t, r) := Responded(s, Refused(text));
      r == Err(text) && !t.authenticating && t == s.(authenticating := false)
  {
  }

  /**
   * An accepted request: the session token is the response's; the login token is
   * replaced only by a truthy one; `authenticating` ends false; and a non-empty
   * session token starts no further renewal.
   */
  lemma AcceptedSetsTokens(s: Stores, session: string, login: Option<string>)
    ensures var (t, r) := Responded(s, Accepted(session, login));
      r == Ok(()) && !t.authenticating && t.sessionToken == Some(session)
      && t.loginToken == (if Truthy(login) then login else s.loginToken)
      && (Authenticated(t) <==> session != "")
      && (session != "" ==> t.requests == s.requests)
  {
    var s1 := WithSession(s, Some(session));
    SetSessionRenews(s, Some(session));
    if Truthy(login) {
      SetLoginRenews(s1, login);
    }
  }

  /**
   * `authenticating` stays raised until a response arrives: when `fetch` itself
   * rejects, no response ever comes and the flag is never lowered.
   */
  lemma {:induction false} AuthenticatingUntilResponse(s: Stores, es: seq<Event>)
    requires s.authenticating && NoResponse(es)
    ensures Run(s, es).authenticating
    decreases |es|
  {
    if |es| > 0 {
      assert !es[0].Response?;
      var t := Step(s, es[0]);
      assert t.authenticating by {
        if es[0].Logout? {
          assert WithLogin(s, None).authenticating;
        }
      }
      assert NoResponse(es[1..]) by {
        forall k | 0 <= k < |es[1..]| ensures !es[1..][k].Response? {
          assert es[1..][k] == es[k + 1];
        }
      }
      AuthenticatingUntilResponse(t, es[1..]);
    }
  }

  /** `logout` clears both tokens and both slots, leaves the session unauthenticated and never sends a renewal request. */
  lemma LogoutClears(s: Stores)
    requires Mirrored(s)
    ensures var t := LoggedOut(s);
      t.loginToken == None && t.sessionToken == None && !Authenticated(t)
      && (s.browser ==> t.localLogin == None && t.sessionSlot == None)
      && t.requests == s.requests && t.authenticating == s.authenticating
  {
    var s1 := WithLogin(s, None);
    SetLoginRenews(s, None);
    SetSessionRenews(s1, None);
  }

  /**
   * The order in `logout` matters: clearing the session token first, while both
   * tokens are set, shows the renewal subscriber a login token without a session
   * token, and a renewal request goes out.
   */
  lemma ReversedLogoutRenews(s: Stores)
    requires Truthy(s.loginToken) && Truthy(s.sessionToken)
    ensures WithLogin(WithSession(s, None), None).requests == s.requests + [LoginTokenPayload(s.loginToken.value)]
    ensures LoggedOut(s).requests == s.requests
  {
    SetSessionRenews(s, None);
    SetLoginRenews(WithSession(s, None), None);
    SetLoginRenews(s, None);
    SetSessionRenews(WithLogin(s, None), None);
  }
}
