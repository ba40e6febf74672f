/**
 withSession of encrypt/pkcs11, one call at a time: the pool, the cached login flag and the
 operation together, against a token that follows section 5.6 of the PKCS #11 v2.40 Base
 Specification: login state is shared by all sessions of the application, a login is dropped
 when the last session closes, and a restart forgets sessions and login alike.
 */
module TokenLogin {
  import opened Wrappers

  type Handle = nat
  type Code = nat

  const OK: Code := 0x000
  const DEVICE_ERROR: Code := 0x030
  const DEVICE_REMOVED: Code := 0x032
  const SESSION_CLOSED: Code := 0x0B0
  const SESSION_HANDLE_INVALID: Code := 0x0B3
  const TOKEN_NOT_PRESENT: Code := 0x0E0
  const USER_ALREADY_LOGGED_IN: Code := 0x100
  const USER_NOT_LOGGED_IN: Code := 0x101
  const CRYPTOKI_NOT_INITIALIZED: Code := 0x190

  /** An error either wraps a tokenError or does not. */
  datatype Error = TokenError(code: Code) | OtherError

  predicate SessionIsDead(err: Option<Error>) {
    match err
    case Some(TokenError(code)) =>
      code in {SESSION_HANDLE_INVALID, SESSION_CLOSED, DEVICE_REMOVED, TOKEN_NOT_PRESENT, DEVICE_ERROR,
               CRYPTOKI_NOT_INITIALIZED, USER_NOT_LOGGED_IN}
    case _ => false
  }

  /** The pool's idle sessions and login flag, and the token's own sessions and login. */
  datatype World = World(idle: seq<Handle>, flag: bool, open: set<Handle>, loggedIn: bool)

  /** What an operation does: nothing on the token, or a request a willing token answers with `code`. */
  datatype Operation = Untouching(err: Option<Error>) | Touching(code: Code)

  /** Everything the environment decides during one call. */
  datatype Env = Env(
    refusal: Option<Error>,       // cancelled context, bad configuration, module or slot error
    openFault: Option<Code>,
    handle: Handle,               // what C_OpenSession returns
    pinOk: bool,
    loginFault: Option<Code>,
    op: Operation,
    closeOk: bool,
    restartBeforeLogin: bool,
    restartBeforeOp: bool)

  /** A token reports an open session's handle only once, and "already logged in" only when it is. */
  ghost predicate Legal(w: World, env: Env) {
    && env.handle !in w.open
    && env.openFault != Some(OK)
    && env.loginFault != Some(OK) && env.loginFault != Some(USER_ALREADY_LOGGED_IN)
  }

  // ---- The token --------------------------------------------------------------------------

  function Restart(w: World): World {
    w.(open := {}, loggedIn := false)
  }

  function RestartIf(w: World, restart: bool): World {
    if restart then Restart(w) else w
  }

  function ClosedSession(w: World, h: Handle, ok: bool): World {
    if h in w.open && ok then w.(open := w.open - {h}, loggedIn := w.loggedIn && w.open != {h}) else w
  }

  /** C_Login, with the module's reading of "already logged in" as success. */
  function ModuleLogin(w: World, h: Handle, fault: Option<Code>): (World, Option<Error>) {
    if h !in w.open then (w, Some(TokenError(SESSION_HANDLE_INVALID)))
    else if fault.Some? then (w, Some(TokenError(fault.value)))
    else (w.(loggedIn := true), None)
  }

  function OperationError(w: World, h: Handle, op: Operation): Option<Error> {
    match op
    case Untouching(err) => err
    case Touching(code) =>
      if h !in w.open then Some(TokenError(SESSION_HANDLE_INVALID))
      else if !w.loggedIn then Some(TokenError(USER_NOT_LOGGED_IN))
      else if code == OK then None else Some(TokenError(code))
  }

  // ---- One call ---------------------------------------------------------------------------

  function AcquireSpec(w: World, env: Env): (World, Result<Handle, Error>) {
    if w.idle != [] then (w.(idle := w.idle[1..]), Ok(w.idle[0]))
    else if env.openFault.Some? then (w, Err(TokenError(env.openFault.value)))
    else (w.(open := w.open + {env.handle}), Ok(env.handle))
  }

  function LoginSpec(w: World, h: Handle, env: Env): (World, Option<Error>) {
    if w.flag then (w, None)
    else if !env.pinOk then (w, Some(OtherError))
    else
      var (w', err) := ModuleLogin(w, h, env.loginFault);
      if err.Some? then (w', err) else (w'.(flag := true), None)
  }

  function ReleaseSpec(w: World, h: Handle, err: Option<Error>, closeOk: bool): World {
    if SessionIsDead(err) then ClosedSession(w, h, closeOk).(flag := false)
    else w.(idle := w.idle + [h])
  }

  /** What a call looked like: the error it returned, the session it got, the world its operation ran in. */
  datatype Report = Report(err: Option<Error>, session: Option<Handle>, ranIn: Option<World>)

  function RunSpec(w: World, h: Handle, env: Env): (World, Report) {
    var (w1, loginErr) := LoginSpec(RestartIf(w, env.restartBeforeLogin), h, env);
    if loginErr.Some? then (w1, Report(loginErr, Some(h), None))
    else
      var w2 := RestartIf(w1, env.restartBeforeOp);
      (w2, Report(OperationError(w2, h, env.op), Some(h), Some(w2)))
  }

  function WithSessionSpec(w: World, env: Env): (World, Report) {
    if env.refusal.Some? then (w, Report(env.refusal, None, None))
    else
      var (w1, acquired) := AcquireSpec(w, env);
      match acquired
      case Err(e) => (w1, Report(Some(e), None, None))
      case Ok(h) =>
        var (w2, report) := RunSpec(w1, h, env);
        (ReleaseSpec(w2, h, report.err, env.closeOk), report)
  }

  /** Close of a repository: every idle session is closed, then the flag is reset. */
  function DrainSpec(w: World, closes: seq<bool>): World
    decreases |w.idle|
  {
    if w.idle == [] then w
    else
      var ok := closes != [] && closes[0];
      DrainSpec(ClosedSession(w.(idle := w.idle[1..]), w.idle[0], ok), if closes == [] then [] else closes[1..])
  }

  // ---- The operation runs logged in -------------------------------------------------------

  /** A cached login is a login of the token, unless every idle session is already stale. */
  ghost predicate LoginAgrees(w: World) {
    && (w.flag ==> w.idle != [])
    && (w.flag && (exists h <- w.idle :: h in w.open) ==> w.loggedIn)
  }

  lemma CallKeepsLogin(w: World, env: Env)
    requires LoginAgrees(w) && Legal(w, env)
    ensures LoginAgrees(WithSessionSpec(w, env).0)
  {
  }

  /** Whenever the session an operation runs on is one the token knows, the token is logged in. */
  lemma OperationRunsLoggedIn(w: World, env: Env)
    requires LoginAgrees(w) && Legal(w, env)
    ensures var report := WithSessionSpec(w, env).1;
            report.ranIn.Some? && report.session.value in report.ranIn.value.open ==> report.ranIn.value.loggedIn
  {
  }

  /** The environment itself answers CKR_USER_NOT_LOGGED_IN, whatever the login state is. */
  predicate EnvReportsNoLogin(env: Env) {
    var code := USER_NOT_LOGGED_IN;
    || env.refusal == Some(TokenError(code)) || env.openFault == Some(code) || env.loginFault == Some(code)
    || env.op == Touching(code) || env.op == Untouching(Some(TokenError(code)))
  }

  /** Otherwise no call ends with it. */
  lemma NoLoginIsReported(w: World, env: Env)
    requires LoginAgrees(w) && Legal(w, env)
    ensures WithSessionSpec(w, env).1.err == Some(TokenError(USER_NOT_LOGGED_IN)) ==> EnvReportsNoLogin(env)
  {
    OperationRunsLoggedIn(w, env);
  }

  /** The codes after which a session is given up, as PKCS #11 numbers them. */
  const DEAD_CODES: set<Code> := {0x030, 0x032, 0x0B0, 0x0B3, 0x0E0, 0x101, 0x190}

  /**
   A session is given up exactly if the call ended with one of seven codes; then the login is
   forgotten and the session closed on the token, and with its last session the token's login ends.
   Otherwise it is the last of the idle ones, and token and login flag stay.
   */
  lemma EvictsExactly(w: World, h: Handle, err: Option<Error>, closeOk: bool)
    ensures var n := ReleaseSpec(w, h, err, closeOk);
            if err.Some? && err.value.TokenError? && err.value.code in DEAD_CODES then
              && n.idle == w.idle && !n.flag
              && n.open == (if closeOk then w.open - {h} else w.open)
              && n.loggedIn == (w.loggedIn && !(closeOk && w.open == {h}))
            else n == w.(idle := w.idle + [h])
  {
  }

  /** A call with a session ends by giving it up or putting it back as its error says. */
  lemma CallEvictsExactly(w: World, env: Env)
    requires Distinct(w.idle) && Legal(w, env) && (w.idle == [] ==> env.openFault.None?) && env.refusal.None?
    ensures var (n, report) := WithSessionSpec(w, env);
            && report.session == Some(if w.idle != [] then w.idle[0] else env.handle)
            && var h := report.session.value; var rest := if w.idle != [] then w.idle[1..] else [];
            if report.err.Some? && report.err.value.TokenError? && report.err.value.code in DEAD_CODES
            then n.idle == rest && !n.flag && (env.closeOk ==> h !in n.open)
            else n.idle == rest + [h]
  {
    var (w1, acquired) := AcquireSpec(w, env);
    var (w2, report) := RunSpec(w1, acquired.value, env);
    EvictsExactly(w2, acquired.value, report.err, env.closeOk);
  }

  /** The session a call would get is one the token knows. */
  ghost predicate GetsKnownSession(w: World, env: Env) {
    env.refusal.None? && if w.idle != [] then w.idle[0] in w.open else env.openFault.None?
  }

  function OperationAnswer(op: Operation): Option<Error> {
    match op
    case Untouching(err) => err
    case Touching(code) => if code == 0 then None else Some(TokenError(code))
  }

  /** No error is swallowed or made up: what refuses, opens, authenticates or operates is what the call reports. */
  lemma EveryErrorIsReported(w: World, env: Env)
    requires LoginAgrees(w) && Legal(w, env) && Calm(env)
    ensures var err := WithSessionSpec(w, env).1.err;
            && (env.refusal.Some? ==> err == env.refusal)
            && (env.refusal.None? && w.idle == [] && env.openFault.Some? ==> err == Some(TokenError(env.openFault.value)))
            && (GetsKnownSession(w, env) ==>
                  err == if w.flag then OperationAnswer(env.op)
                         else if !env.pinOk then Some(OtherError)
                         else if env.loginFault.Some? then Some(TokenError(env.loginFault.value))
                         else OperationAnswer(env.op))
  {
  }

  /** The login is remembered exactly if it was before or has just succeeded, unless the session is given up. */
  lemma LoginIsRemembered(w: World, env: Env)
    requires LoginAgrees(w) && Legal(w, env) && Calm(env) && GetsKnownSession(w, env)
    ensures var (n, report) := WithSessionSpec(w, env);
            report.err.None? || report.err.value.OtherError? || report.err.value.code !in DEAD_CODES ==>
              (n.flag <==> w.flag || (env.pinOk && env.loginFault.None?))
  {
  }

  function Members(idle: seq<Handle>): set<Handle> {
    set h | h in idle
  }

  /** A close whose calls succeed closes every idle session, and ends the token's login with the last session. */
  lemma {:induction false} DrainClosesEverySession(w: World, closes: seq<bool>)
    requires |w.idle| <= |closes| && forall i | 0 <= i < |closes| :: closes[i]
    ensures var n := DrainSpec(w, closes);
            && n.idle == [] && n.open == w.open - Members(w.idle)
            && (n.loggedIn ==> w.loggedIn) && (n.open == {} && w.open != {} ==> !n.loggedIn)
    decreases |w.idle|
  {
    if w.idle != [] {
      var h := w.idle[0];
      var next := ClosedSession(w.(idle := w.idle[1..]), h, true);
      assert next.open == w.open - {h} && next.idle == w.idle[1..];
      assert Members(w.idle) == {h} + Members(w.idle[1..]);
      DrainClosesEverySession(next, closes[1..]);
      if next.open == {} && w.open != {} {
        assert w.open == {h};
      }
    }
  }

  // ---- Every run --------------------------------------------------------------------------

  datatype Event = Call(env: Env) | TokenRestarts | CloseRepository(closes: seq<bool>)

  ghost predicate LegalEvent(w: World, e: Event) {
    e.Call? ==> Legal(w, e.env)
  }

  ghost function After(w: World, e: Event): World {
    match e
    case Call(env) => WithSessionSpec(w, env).0
    case TokenRestarts => Restart(w)
    case CloseRepository(closes) => DrainSpec(w, closes).(flag := false)
  }

  ghost predicate Leads(w: World, events: seq<Event>, t: World)
    decreases |events|
  {
    if events == [] then w == t
    else LegalEvent(w, events[0]) && Leads(After(w, events[0]), events[1..], t)
  }

  /**
   After any sequence of calls, token restarts and closes, an operation whose session the token
   knows runs logged in, so no operation ever meets CKR_USER_NOT_LOGGED_IN.
   */
  lemma {:induction false} AlwaysLoggedIn(w: World, events: seq<Event>, t: World, env: Env)
    requires LoginAgrees(w) && Leads(w, events, t) && Legal(t, env)
    ensures LoginAgrees(t)
    ensures var report := WithSessionSpec(t, env).1;
            && (report.ranIn.Some? && report.session.value in report.ranIn.value.open ==> report.ranIn.value.loggedIn)
            && (report.ranIn.Some? && env.op.Touching? && env.op.code != USER_NOT_LOGGED_IN ==>
                  report.err != Some(TokenError(USER_NOT_LOGGED_IN)))
    decreases |events|
  {
    if events == [] {
      OperationRunsLoggedIn(w, env);
    } else {
      if events[0].Call? {
        CallKeepsLogin(w, events[0].env);
      }
      AlwaysLoggedIn(After(w, events[0]), events[1..], t, env);
    }
  }

  // ---- Recovery after a restart -----------------------------------------------------------

  /** How many of the idle sessions the token no longer knows. */
  ghost function Stale(idle: seq<Handle>, open: set<Handle>): nat {
    if idle == [] then 0 else (if idle[0] in open then 0 else 1) + Stale(idle[1..], open)
  }

  lemma {:induction false} StaleAppend(idle: seq<Handle>, h: Handle, open: set<Handle>)
    ensures Stale(idle + [h], open) == Stale(idle, open) + (if h in open then 0 else 1)
  {
    if idle == [] {
      assert [h][1..] == [];
    } else {
      StaleAppend(idle[1..], h, open);
      assert (idle + [h])[1..] == idle[1..] + [h];
    }
  }

  /** Forgetting a session that is not idle makes no idle session stale. */
  lemma {:induction false} StaleFrame(idle: seq<Handle>, open: set<Handle>, h: Handle)
    requires h !in idle
    ensures Stale(idle, open - {h}) == Stale(idle, open)
    ensures Stale(idle, open + {h}) == Stale(idle, open)
  {
    if idle != [] {
      StaleFrame(idle[1..], open, h);
    }
  }

  ghost predicate Distinct(idle: seq<Handle>) {
    forall i, j | 0 <= i < j < |idle| :: idle[i] != idle[j]
  }

  /** The call asks the token something on the session it was given. */
  ghost predicate TouchesToken(w: World, env: Env) {
    env.refusal.None? && (if w.flag then env.op.Touching? else env.pinOk)
  }

  ghost predicate Calm(env: Env) {
    !env.restartBeforeLogin && !env.restartBeforeOp
  }

  /** A call that touches the token with a stale session fails, evicts it and forgets the login. */
  lemma StaleSessionEvicted(w: World, env: Env)
    requires w.idle != [] && w.idle[0] !in w.open
    requires Calm(env) && TouchesToken(w, env)
    ensures var (n, report) := WithSessionSpec(w, env);
            && report.err == Some(TokenError(SESSION_HANDLE_INVALID))
            && n == w.(idle := w.idle[1..], flag := false)
  {
  }

  ghost predicate StaleFailure(w: World, env: Env) {
    env.refusal.None? && w.idle != [] && w.idle[0] !in w.open && TouchesToken(w, env)
  }

  /** A call on a pooled session puts it back, or drops it and perhaps closes it on the token. */
  lemma PooledCall(w: World, env: Env)
    requires w.idle != [] && env.refusal.None? && Calm(env)
    ensures var n := WithSessionSpec(w, env).0;
            || (n.idle == w.idle[1..] + [w.idle[0]] && n.open == w.open && !StaleFailure(w, env))
            || (n.idle == w.idle[1..] && (n.open == w.open || n.open == w.open - {w.idle[0]}))
  {
  }

  /** A call on an empty pool leaves it empty or with one session the token knows. */
  lemma FreshCall(w: World, env: Env)
    requires w.idle == [] && Calm(env)
    ensures var n := WithSessionSpec(w, env).0;
            n.idle == [] || (n.idle == [env.handle] && env.handle in n.open)
  {
  }

  lemma RotatedDistinct(idle: seq<Handle>)
    requires Distinct(idle) && idle != []
    ensures Distinct(idle[1..]) && Distinct(idle[1..] + [idle[0]]) && idle[0] !in idle[1..]
  {
  }

  lemma StaleOnlyLeavesPool(w: World, env: Env)
    requires Distinct(w.idle) && Calm(env) && w.idle != [] && env.refusal.None?
    ensures var n := WithSessionSpec(w, env).0;
            && Distinct(n.idle)
            && Stale(n.idle, n.open) + (if StaleFailure(w, env) then 1 else 0) <= Stale(w.idle, w.open)
  {
    var h, tail, n := w.idle[0], w.idle[1..], WithSessionSpec(w, env).0;
    RotatedDistinct(w.idle);
    PooledCall(w, env);
    assert Stale(w.idle, w.open) == (if h in w.open then 0 else 1) + Stale(tail, w.open);
    if n.idle == tail + [h] && n.open == w.open && !StaleFailure(w, env) {
      StaleAppend(tail, h, w.open);
    } else {
      StaleFrame(tail, w.open, h);
    }
  }

  /** Without another restart, stale sessions only leave, one per stale failure. */
  lemma StaleOnlyLeaves(w: World, env: Env)
    requires Distinct(w.idle) && Legal(w, env) && Calm(env)
    ensures var n := WithSessionSpec(w, env).0;
            && Distinct(n.idle)
            && Stale(n.idle, n.open) + (if StaleFailure(w, env) then 1 else 0) <= Stale(w.idle, w.open)
  {
    if env.refusal.None? {
      if w.idle != [] {
        StaleOnlyLeavesPool(w, env);
      } else {
        FreshCall(w, env);
      }
    }
  }

  ghost function StaleFailures(w: World, envs: seq<Env>): nat
    decreases |envs|
  {
    if envs == [] then 0
    else (if StaleFailure(w, envs[0]) then 1 else 0) + StaleFailures(WithSessionSpec(w, envs[0]).0, envs[1..])
  }

  ghost predicate LegalCalls(w: World, envs: seq<Env>)
    decreases |envs|
  {
    envs != [] ==> Legal(w, envs[0]) && Calm(envs[0]) && LegalCalls(WithSessionSpec(w, envs[0]).0, envs[1..])
  }

  /** However many calls follow a restart, at most as many fail on a stale session as were idle then. */
  lemma {:induction false} FewStaleFailures(w: World, envs: seq<Env>)
    requires Distinct(w.idle) && LegalCalls(w, envs)
    ensures StaleFailures(w, envs) <= Stale(w.idle, w.open) <= |w.idle|
    decreases |envs|
  {
    StaleAtMostIdle(w.idle, w.open);
    if envs != [] {
      StaleOnlyLeaves(w, envs[0]);
      FewStaleFailures(WithSessionSpec(w, envs[0]).0, envs[1..]);
    }
  }

  lemma {:induction false} StaleAtMostIdle(idle: seq<Handle>, open: set<Handle>)
    ensures Stale(idle, open) <= |idle|
  {
    if idle != [] {
      StaleAtMostIdle(idle[1..], open);
    }
  }

  /** A call nothing goes wrong with on the caller's and the token's side. */
  ghost predicate Healthy(env: Env) {
    && env.refusal.None? && env.openFault.None? && env.loginFault.None? && env.pinOk
    && env.op == Touching(OK) && Calm(env)
  }

  /**
   Recovery: after a restart, exactly the calls that meet the idle sessions of before it fail,
   each on a dead session, and the next one opens a session, logs in and succeeds.
   */
  lemma {:induction false} Recovers(w: World, envs: seq<Env>)
    requires LoginAgrees(w) && w.open == {} && !w.loggedIn && |envs| == |w.idle| + 1
    requires forall env <- envs :: Healthy(env)
    ensures WithSessionSpec(AfterCalls(w, envs[..|w.idle|]), envs[|w.idle|]).1 ==
            Report(None, Some(envs[|w.idle|].handle),
                   Some(World([], true, {envs[|w.idle|].handle}, true)))
    ensures forall i | 0 <= i < |w.idle| ::
              WithSessionSpec(AfterCalls(w, envs[..i]), envs[i]).1.err == Some(TokenError(SESSION_HANDLE_INVALID))
    decreases |w.idle|
  {
    assert envs[0] in envs;
    if w.idle != [] {
      StaleSessionEvicted(w, envs[0]);
      var n := WithSessionSpec(w, envs[0]).0;
      Recovers(n, envs[1..]);
      forall i | 0 < i <= |w.idle|
        ensures AfterCalls(w, envs[..i]) == AfterCalls(n, envs[1..][..i - 1])
      {
        assert envs[..i][1..] == envs[1..][..i - 1];
      }
      forall i | 0 <= i < |w.idle|
        ensures WithSessionSpec(AfterCalls(w, envs[..i]), envs[i]).1.err == Some(TokenError(SESSION_HANDLE_INVALID))
      {
        if i > 0 {
          assert envs[i] == envs[1..][i - 1];
        }
      }
    } else {
      assert envs[..0] == [];
      assert w.open + {envs[0].handle} == {envs[0].handle};
    }
  }

  ghost function AfterCalls(w: World, envs: seq<Env>): World
    decreases |envs|
  {
    if envs == [] then w else AfterCalls(WithSessionSpec(w, envs[0]).0, envs[1..])
  }

  // ---- The objects ------------------------------------------------------------------------

  /** The token, as the module sees it. */
  class Token {
    var open: set<Handle>
    var loggedIn: bool

    constructor ()
      ensures open == {} && !loggedIn
    {
      open, loggedIn := {}, false;
    }

    method MayRestart(restart: bool)
      modifies this
      ensures open == (if restart then {} else old(open)) && loggedIn == (!restart && old(loggedIn))
    {
      if restart {
        open, loggedIn := {}, false;
      }
    }

    method CloseSession(h: Handle, ok: bool)
      modifies this
      ensures open == (if ok && h in old(open) then old(open) - {h} else old(open))
      ensures loggedIn == (old(loggedIn) && !(ok && old(open) == {h}))
    {
      if ok && h in open {
        open := open - {h};
        if open == {} {
          loggedIn := false;
        }
      }
    }
  }

  /** A slotState with its session pool and its token. */
  class Slot {
    const token: Token
    var idle: seq<Handle>
    var flag: bool

    ghost function View(): World
      reads this, token
    {
      World(idle, flag, token.open, token.loggedIn)
    }

    ghost predicate Valid()
      reads this, token
    {
      LoginAgrees(View())
    }

    constructor (token: Token)
      ensures Valid() && this.token == token && idle == [] && !flag
    {
      this.token := token;
      idle, flag := [], false;
    }

    method Acquire(env: Env) returns (session: Result<Handle, Error>)
      modifies this, token
      ensures (View(), session) == AcquireSpec(old(View()), env)
    {
      if idle != [] {
        session := Ok(idle[0]);
        idle := idle[1..];
        return;
      }
      if env.openFault.Some? {
        return Err(TokenError(env.openFault.value));
      }
      token.open := token.open + {env.handle};
      session := Ok(env.handle);
    }

    method Login(session: Handle, env: Env) returns (err: Option<Error>)
      modifies this, token
      ensures (View(), err) == LoginSpec(old(View()), session, env)
    {
      if flag {
        return None;
      }
      if !env.pinOk {
        return Some(OtherError);
      }
      if session !in token.open {
        return Some(TokenError(SESSION_HANDLE_INVALID));
      }
      if env.loginFault.Some? {
        return Some(TokenError(env.loginFault.value));
      }
      token.loggedIn := true;
      flag := true;
      err := None;
    }

    method RunLoggedIn(session: Handle, env: Env) returns (err: Option<Error>)
      modifies this, token
      ensures View() == RunSpec(old(View()), session, env).0
      ensures err == RunSpec(old(View()), session, env).1.err
    {
      token.MayRestart(env.restartBeforeLogin);
      err := Login(session, env);
      if err.Some? {
        return;
      }
      token.MayRestart(env.restartBeforeOp);
      err := OperationError(World(idle, flag, token.open, token.loggedIn), session, env.op);
    }

    /** release followed by the resetLogin of withSession. */
    method Release(session: Handle, err: Option<Error>, env: Env)
      modifies this, token
      ensures View() == ReleaseSpec(old(View()), session, err, env.closeOk)
    {
      if SessionIsDead(err) {
        token.CloseSession(session, env.closeOk);
        flag := false;
        return;
      }
      idle := idle + [session];
    }

    /** withSession; the error of a healthy token is never that nobody is logged in. */
    method WithSession(env: Env) returns (err: Option<Error>)
      requires Valid() && Legal(View(), env)
      modifies this, token
      ensures Valid() && View() == WithSessionSpec(old(View()), env).0
      ensures err == WithSessionSpec(old(View()), env).1.err
      ensures err == Some(TokenError(USER_NOT_LOGGED_IN)) ==> EnvReportsNoLogin(env)
    {
      CallKeepsLogin(View(), env);
      NoLoginIsReported(View(), env);
      err := CallWithSession(env);
    }

    method CallWithSession(env: Env) returns (err: Option<Error>)
      modifies this, token
      ensures View() == WithSessionSpec(old(View()), env).0
      ensures err == WithSessionSpec(old(View()), env).1.err
    {
      if env.refusal.Some? {
        return env.refusal;
      }
      var session := Acquire(env);
      if session.Err? {
        return Some(session.error);
      }
      err := RunLoggedIn(session.value, env);
      Release(session.value, err, env);
    }

    /** drain and resetLogin, as moduleEntry.release calls them. */
    method Drain(closes: seq<bool>)
      modifies this, token
      ensures Valid() && View() == After(old(View()), CloseRepository(closes))
      ensures idle == [] && !flag
    {
      var rest := closes;
      while idle != []
        invariant DrainSpec(View(), rest) == DrainSpec(old(View()), closes)
        decreases |idle|
      {
        ghost var before := View();
        var session := idle[0];
        idle := idle[1..];
        token.CloseSession(session, rest != [] && rest[0]);
        assert View() == ClosedSession(before.(idle := idle), session, rest != [] && rest[0]);
        rest := if rest == [] then [] else rest[1..];
      }
      flag := false;
    }
  }
}
