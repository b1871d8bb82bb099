/** The session held by `AuthProvider`: the stored token, the three-valued
    `isAuthenticated` flag, `loading`, and the never-set `productId`. */
module Auth {
  import opened Wrappers
  import opened Text

  /** One snapshot of the provider: `token` is the persisted `localStorage` slot,
      `None` standing for a missing key; `isAuthenticated == None` is JavaScript's `null`. */
  datatype AuthState = AuthState(
    token: Option<string>, isAuthenticated: Option<bool>, loading: bool, productId: Option<string>)

  /** What can happen to the provider: its mount effect, `login(token)` and `logout()`. */
  datatype AuthEvent = Init | Login(newToken: string) | Logout

  /** `!!localStorage.getItem('token')`: a missing key and the empty string are both falsy. */
  predicate HasToken(token: Option<string>) {
    token.Some? && Truthy(token.value)
  }

  /** The state before the mount effect runs, for whatever the slot already holds. */
  function Initial(stored: Option<string>): AuthState {
    AuthState(stored, None, true, None)
  }

  /** The effect of one event on the provider. */
  function Step(s: AuthState, e: AuthEvent): (r: AuthState)
    ensures r.isAuthenticated.Some?
    ensures r.productId == s.productId
    ensures e != Init ==> r.loading == s.loading
  {
    match e
    case Init => s.(isAuthenticated := Some(HasToken(s.token)), loading := false)
    case Login(t) => s.(token := Some(t), isAuthenticated := Some(true))
    case Logout => s.(token := None, isAuthenticated := Some(false))
  }

  /** The events applied in order. */
  function Run(s: AuthState, es: seq<AuthEvent>): AuthState
    decreases |es|
  {
    if |es| == 0 then s else Run(Step(s, es[0]), es[1..])
  }

  /** Once loaded, the flag tells whether a non-empty token is stored. */
  predicate Consistent(s: AuthState) {
    !s.loading ==> s.isAuthenticated == Some(HasToken(s.token))
  }

  /** Every `login` in `es` is given a non-empty token. */
  predicate LoginsHaveTokens(es: seq<AuthEvent>) {
    forall i :: 0 <= i < |es| && es[i].Login? ==> es[i].newToken != ""
  }

  /** The mount effect loads the flag from the slot and ends loading. */
  lemma InitReadsSlot(s: AuthState)
    ensures !Step(s, Init).loading
    ensures Step(s, Init).isAuthenticated == Some(s.token.Some? && s.token.value != "")
    ensures Step(s, Init).token == s.token
  {
  }

  /** `login(t)` stores `t` and raises the flag; `loading` is untouched. */
  lemma LoginStores(s: AuthState, t: string)
    ensures Step(s, Login(t)).token == Some(t) && Step(s, Login(t)).isAuthenticated == Some(true)
    ensures Step(s, Login(t)).loading == s.loading
  {
  }

  /** `logout()` clears the slot and lowers the flag; a second `logout()` changes nothing. */
  lemma LogoutIdempotent(s: AuthState)
    ensures Step(s, Logout).token == None && Step(s, Logout).isAuthenticated == Some(false)
    ensures Step(Step(s, Logout), Logout) == Step(s, Logout)
  {
  }

  /** Running `es` and then `more` is running their concatenation. */
  lemma {:induction false} RunAppend(s: AuthState, es: seq<AuthEvent>, more: seq<AuthEvent>)
    ensures Run(s, es + more) == Run(Run(s, es), more)
    decreases |es|
  {
    if |es| == 0 {
      assert es + more == more;
    } else {
      assert (es + more)[1..] == es[1..] + more;
      RunAppend(Step(s, es[0]), es[1..], more);
    }
  }

  /** Ending any history with two logouts is the same as ending it with one. */
  lemma LogoutTwiceAfterAnything(s: AuthState, es: seq<AuthEvent>)
    ensures Run(s, es + [Logout, Logout]) == Run(s, es + [Logout])
  {
    RunAppend(s, es, [Logout, Logout]);
    RunAppend(s, es, [Logout]);
    LogoutIdempotent(Run(s, es));
  }

  /** An event keeps the flag consistent unless it is a login with an empty token. */
  lemma StepConsistent(s: AuthState, e: AuthEvent)
    requires Consistent(s)
    requires e.Login? ==> e.newToken != ""
    ensures Consistent(Step(s, e))
  {
  }

  /** From any consistent state, logins with tokens, logouts and the mount effect keep it consistent. */
  lemma {:induction false} RunConsistent(s: AuthState, es: seq<AuthEvent>)
    requires Consistent(s)
    requires LoginsHaveTokens(es)
    ensures Consistent(Run(s, es))
    decreases |es|
  {
    if |es| > 0 {
      StepConsistent(s, es[0]);
      assert LoginsHaveTokens(es[1..]) by {
        forall i | 0 <= i < |es[1..]| && es[1..][i].Login? ensures es[1..][i].newToken != "" {
          assert es[1..][i] == es[i + 1];
        }
      }
      RunConsistent(Step(s, es[0]), es[1..]);
    }
  }

  /** The fresh provider is consistent, so every history of non-empty logins keeps it so. */
  lemma SessionConsistent(stored: Option<string>, es: seq<AuthEvent>)
    requires LoginsHaveTokens(es)
    ensures Consistent(Run(Initial(stored), es))
  {
    RunConsistent(Initial(stored), es);
  }

  /** `login("")` raises the flag although the empty token it stores would read as signed out on reload. */
  lemma EmptyLoginDiverges(s: AuthState)
    requires !s.loading
    ensures Step(s, Login("")).isAuthenticated == Some(true)
    ensures !HasToken(Step(s, Login("")).token)
    ensures !Consistent(Step(s, Login("")))
  {
  }

  /** `loading` stays true until the mount effect has run, and false from then on. */
  lemma {:induction false} LoadingUntilInit(s: AuthState, es: seq<AuthEvent>)
    ensures Run(s, es).loading <==> s.loading && Init !in es
    decreases |es|
  {
    if |es| > 0 {
      LoadingUntilInit(Step(s, es[0]), es[1..]);
      assert es == [es[0]] + es[1..];
      assert Init in es <==> es[0] == Init || Init in es[1..];
    }
  }

  /** The flag is `null` only while no event at all has happened. */
  lemma {:induction false} FlagSetByAnyEvent(s: AuthState, es: seq<AuthEvent>)
    ensures Run(s, es).isAuthenticated == None <==> s.isAuthenticated == None && |es| == 0
    decreases |es|
  {
    if |es| > 0 {
      FlagSetByAnyEvent(Step(s, es[0]), es[1..]);
    }
  }

  /** Nothing ever sets `productId`. */
  lemma {:induction false} ProductIdNeverSet(s: AuthState, es: seq<AuthEvent>)
    ensures Run(s, es).productId == s.productId
    decreases |es|
  {
    if |es| > 0 {
      ProductIdNeverSet(Step(s, es[0]), es[1..]);
    }
  }

  /** The provider, with the `localStorage` slot as a field of its own. */
  class AuthProvider {
    var token: Option<string>
    var isAuthenticated: Option<bool>
    var loading: bool
    var productId: Option<string>

    function State(): AuthState
      reads this
    {
      AuthState(token, isAuthenticated, loading, productId)
    }

    /** The first render: `useState(null)`, `useState(null)`, `useState(true)`, over the current slot. */
    constructor(stored: Option<string>)
      ensures State() == Initial(stored)
    {
      token := stored;
      isAuthenticated := None;
      productId := None;
      loading := true;
    }

    /** The mount effect: read the slot, set the flag from its truthiness, end loading. */
    method Init()
      modifies this
      ensures State() == Step(old(State()), AuthEvent.Init)
    {
      var stored := token;
      isAuthenticated := Some(HasToken(stored));
      loading := false;
    }

    /** `login(t)`: store `t`, then raise the flag. */
    method Login(t: string)
      modifies this
      ensures State() == Step(old(State()), AuthEvent.Login(t))
    {
      token := Some(t);
      isAuthenticated := Some(true);
    }

    /** `localStorage.setItem('token', t)` outside the provider: only the slot changes. */
    method StoreToken(t: string)
      modifies this
      ensures State() == old(State()).(token := Some(t))
    {
      token := Some(t);
    }

    /** `logout()`: remove the slot, then lower the flag. */
    method Logout()
      modifies this
      ensures State() == Step(old(State()), AuthEvent.Logout)
    {
      token := None;
      isAuthenticated := Some(false);
    }
  }
}
