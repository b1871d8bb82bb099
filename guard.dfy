/** `ProtectedRoute`: what a guarded route shows for the provider's `loading` and `isAuthenticated`. */
module Guard {
  import opened Wrappers
  import opened Auth

  /** The spinner, the guarded element, or a `<Navigate>` to `to`. */
  datatype Decision = Loading | Render | Redirect(to: string)

  const LoginPath := "/login"

  /** The guard: wait while loading or while the flag is `null`; otherwise render or send to the login page. */
  function Decide(loading: bool, isAuthenticated: Option<bool>): (d: Decision)
    ensures d == Loading <==> loading || isAuthenticated.None?
    ensures d == Render <==> !loading && isAuthenticated == Some(true)
    ensures d.Redirect? <==> !loading && isAuthenticated == Some(false)
    ensures d.Redirect? ==> d.to == LoginPath
  {
    if loading || isAuthenticated == None then Loading
    else if isAuthenticated.value then Render
    else Redirect(LoginPath)
  }

  /** The guard's decision for a provider state. */
  function DecideFor(s: AuthState): Decision {
    Decide(s.loading, s.isAuthenticated)
  }

  /** Before the mount effect has run the guard waits, whatever else happened. */
  lemma WaitsUntilInit(stored: Option<string>, es: seq<AuthEvent>)
    requires Init !in es
    ensures DecideFor(Run(Initial(stored), es)) == Loading
  {
    LoadingUntilInit(Initial(stored), es);
  }

  /** After the mount effect, with non-empty login tokens, the guard renders exactly when a non-empty token is stored and otherwise redirects to the login page. */
  lemma DecidedByToken(stored: Option<string>, es: seq<AuthEvent>)
    requires Init in es
    requires LoginsHaveTokens(es)
    ensures DecideFor(Run(Initial(stored), es)) == Render <==> HasToken(Run(Initial(stored), es).token)
    ensures DecideFor(Run(Initial(stored), es)) == Redirect(LoginPath) <==> !HasToken(Run(Initial(stored), es).token)
  {
    LoadingUntilInit(Initial(stored), es);
    SessionConsistent(stored, es);
  }

  /** Right after `logout()` on a loaded provider the guard redirects to the login page. */
  lemma RedirectsAfterLogout(s: AuthState)
    requires !s.loading
    ensures DecideFor(Step(s, AuthEvent.Logout)) == Redirect(LoginPath)
  {
  }
}
