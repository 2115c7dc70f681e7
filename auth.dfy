/**
 * The session flags of src/App.tsx: `isAuthenticated` and
 * `isDeveloperAccess`, driven by the initial session load, the backend's
 * session-change events, `login` and `logout`. Whether a backend session
 * exists is an input to each handler; each handler, including the session
 * check that `login` awaits, is one atomic step.
 */
module Auth {

  /** The two flags. */
  datatype Flags = Flags(authenticated: bool, developer: bool)

  /** The events that change the flags. */
  datatype Event =
    | InitialLoad(hasSession: bool)       // the `getSession()` on mount
    | SessionChanged(hasSession: bool)    // `onAuthStateChange`
    | Login(hasSession: bool)             // `login()` with its `getSession()` check
    | Logout                              // `logout()`

  /** Developer access is a kind of authentication. */
  predicate Consistent(f: Flags) {
    f.developer ==> f.authenticated
  }

  /** The transition table. */
  function Step(f: Flags, e: Event): (g: Flags)
    ensures e.InitialLoad? ==> g == Flags(e.hasSession, false)
    ensures e.SessionChanged? ==> g.authenticated == e.hasSession && g.developer == (e.hasSession && f.developer)
    ensures e.Login? ==> g.authenticated && g.developer == (f.developer || !e.hasSession)
    ensures e.Logout? ==> !g.authenticated && !g.developer
    ensures Consistent(g)
  {
    match e
    case InitialLoad(s) => Flags(s, false)
    case SessionChanged(s) => Flags(s, if s then f.developer else false)
    case Login(s) => Flags(true, if s then f.developer else true)
    case Logout => if f.developer then Flags(false, false) else Flags(false, f.developer)
  }

  /** The flags after a run of events. */
  function Run(f: Flags, events: seq<Event>): Flags
    decreases |events|
  {
    if events == [] then f else Run(Step(f, events[0]), events[1..])
  }

  /** From consistent flags, every run of events keeps developer access within authentication. */
  lemma {:induction false} RunConsistent(f: Flags, events: seq<Event>)
    requires Consistent(f)
    ensures Consistent(Run(f, events))
    decreases |events|
  {
    if events != [] {
      RunConsistent(Step(f, events[0]), events[1..]);
    }
  }

  /** Without a login, developer access that is off stays off, whatever the session events. */
  lemma {:induction false} NoDeveloperAccessWithoutLogin(f: Flags, events: seq<Event>)
    requires !f.developer
    requires forall i :: 0 <= i < |events| ==> !events[i].Login?
    ensures !Run(f, events).developer
    decreases |events|
  {
    if events != [] {
      NoDeveloperAccessWithoutLogin(Step(f, events[0]), events[1..]);
    }
  }

  /** Where `ProtectedRoute` sends the user. */
  datatype Route = RenderChildren | RedirectTo(path: string)

  /** `ProtectedRoute`: the children when authenticated, otherwise a redirect to "/". */
  function ProtectedRoute(isAuthenticated: bool): (r: Route)
    ensures r.RenderChildren? <==> isAuthenticated
    ensures !isAuthenticated ==> r == RedirectTo("/")
  {
    if !isAuthenticated then RedirectTo("/") else RenderChildren
  }

  /** The `App` component's authentication state. */
  class AuthState {
    var isAuthenticated: bool
    var isDeveloperAccess: bool

    function State(): Flags
      reads this
    {
      Flags(isAuthenticated, isDeveloperAccess)
    }

    /**
     * `isDeveloperAccess` implies `isAuthenticated`. Every handler ends in this
     * state from any starting flags, since `Step` always yields consistent
     * flags, so no handler needs it beforehand; `RunConsistent` carries it
     * over any sequence of handler calls.
     */
    predicate Valid()
      reads this
    {
      Consistent(State())
    }

    /** Both flags start false. */
    constructor ()
      ensures Valid() && !isAuthenticated && !isDeveloperAccess
    {
      isAuthenticated, isDeveloperAccess := false, false;
    }

    /** The initial `getSession()`: authenticated iff a session exists; developer access reset. */
    method HandleInitialSession(hasSession: bool)
      modifies this
      ensures State() == Step(old(State()), InitialLoad(hasSession))
      ensures Valid() && isAuthenticated == hasSession && !isDeveloperAccess
    {
      isAuthenticated := hasSession;
      isDeveloperAccess := false;
    }

    /** `onAuthStateChange`: authenticated iff a session exists; developer access cleared when it does not. */
    method HandleAuthStateChange(hasSession: bool)
      modifies this
      ensures State() == Step(old(State()), SessionChanged(hasSession))
      ensures Valid() && isAuthenticated == hasSession
      ensures isDeveloperAccess == (hasSession && old(isDeveloperAccess))
    {
      isAuthenticated := hasSession;
      if !hasSession {
        isDeveloperAccess := false;
      }
    }

    /** `login`: authenticated; developer access when the backend has no session. */
    method Login(hasSession: bool)
      modifies this
      ensures State() == Step(old(State()), Event.Login(hasSession))
      ensures Valid() && isAuthenticated
      ensures isDeveloperAccess == (old(isDeveloperAccess) || !hasSession)
    {
      isAuthenticated := true;
      if !hasSession {
        isDeveloperAccess := true;
      }
    }

    /**
     * `logout`: under developer access both flags are cleared locally;
     * otherwise the backend sign-out is called (`signedOut`) and
     * authentication is cleared.
     */
    method Logout() returns (signedOut: bool)
      modifies this
      ensures State() == Step(old(State()), Event.Logout)
      ensures Valid() && !isAuthenticated && !isDeveloperAccess
      ensures signedOut == !old(isDeveloperAccess)
    {
      if isDeveloperAccess {
        isAuthenticated := false;
        isDeveloperAccess := false;
        signedOut := false;
      } else {
        signedOut := true;
        isAuthenticated := false;
      }
    }
  }
}
