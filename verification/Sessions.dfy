/**
 * Login sessions in Redis (backend/common/security/jwt.py, auth_service.py and
 * user_service.py of backend/app/admin/service).
 *
 * A session is an access key and a refresh key named by a fresh UUID.  Proved
 * over whole runs: users without multi-login have at most one access key, a
 * refresh token is accepted once, and tokens purged with their user are never
 * accepted again.
 */
module Sessions {
  import opened Wrappers
  import opened RedisKeys

  const TOKEN_EXPIRE_SECONDS := 86400
  const TOKEN_REFRESH_EXPIRE_SECONDS := 604800

  /** The payload of a signed token; signing is injective, so the payload stands for the token. */
  datatype Token = Token(session: string, exp: int, user: nat)

  datatype Value = Jwt(token: Token) | Text

  /** A value under a Redis key with its expiry. */
  datatype Entry = Entry(value: Value, expires: int)

  datatype User = User(multiLogin: bool, enabled: bool)

  /** `used` and `known` record which UUIDs and user ids have ever been given out. */
  datatype State = SessionState(
    now: int, data: map<string, Entry>, users: map<nat, User>, used: set<string>, known: set<nat>)

  function Get(s: State, key: string): Option<Value> {
    if key in s.data && s.now < s.data[key].expires then Some(s.data[key].value) else None
  }

  function Set(s: State, key: string, value: Value, ttl: int): State {
    s.(data := s.data[key := Entry(value, s.now + ttl)])
  }

  function Purge(s: State, f: Family, user: nat, exclude: set<string>): State {
    s.(data := Purged(s.data, UserPrefix(f, user), exclude))
  }

  function Remove(s: State, f: Family, user: nat, session: string): State {
    s.(data := s.data - {SessionKey(f, user, session)})
  }

  // ---------------------------------------------------------------- tokens

  function IssuedAccess(s: State, user: nat, session: string): Token {
    Token(session, s.now + TOKEN_EXPIRE_SECONDS, user)
  }

  function IssuedRefresh(s: State, user: nat, session: string): Token {
    Token(session, s.now + TOKEN_REFRESH_EXPIRE_SECONDS, user)
  }

  /** The access token of a new session, with its extra information. */
  function WithAccess(s: State, user: nat, session: string): State {
    var t := Set(s, SessionKey(Access, user, session), Jwt(IssuedAccess(s, user, session)), TOKEN_EXPIRE_SECONDS);
    Set(t, SessionKey(Extra, user, session), Text, TOKEN_EXPIRE_SECONDS).(used := s.used + {session})
  }

  function CreateAccess(s: State, user: nat, multiLogin: bool, session: string): State {
    WithAccess(if multiLogin then s else Purge(s, Access, user, {}), user, session)
  }

  function CreateRefresh(s: State, user: nat, multiLogin: bool, session: string): State {
    var t := if multiLogin then s else Purge(s, Refresh, user, {});
    Set(t, SessionKey(Refresh, user, session), Jwt(IssuedRefresh(s, user, session)), TOKEN_REFRESH_EXPIRE_SECONDS)
  }

  /** create_new_token accepts exactly the token stored under its user and session. */
  predicate AcceptsRefresh(s: State, t: Token) {
    Get(s, SessionKey(Refresh, t.user, t.session)) == Some(Jwt(t))
  }

  /** jwt_authentication accepts an unexpired token that is stored under its user and session. */
  predicate AcceptsAccess(s: State, t: Token) {
    s.now <= t.exp && Get(s, SessionKey(Access, t.user, t.session)) == Some(Jwt(t))
  }

  function CreateNew(s: State, t: Token, multiLogin: bool, session: string): State
    requires AcceptsRefresh(s, t)
  {
    var r := Remove(Remove(s, Refresh, t.user, t.session), Access, t.user, t.session);
    CreateRefresh(CreateAccess(r, t.user, multiLogin, session), t.user, multiLogin, session)
  }

  /** Another session of the user is stored. */
  predicate LoggedInElsewhere(s: State, user: nat, session: string) {
    exists k :: k in s.data && s.now < s.data[k].expires && UserPrefix(Access, user) + ":" <= k
      && !EndsWith(k, ":" + session)
  }

  predicate EndsWith(s: string, end: string) {
    |end| <= |s| && s[|s| - |end|..] == end
  }

  /** The tokens of a new session, access and refresh. */
  function Reissued(s: State, user: nat, session: string): (Token, Token) {
    (IssuedAccess(s, user, session), IssuedRefresh(s, user, session))
  }

  datatype SessionError =
    | TokenExpired | TokenInvalid | UserMissing | UserLocked | LoggedInElsewhereError | RefreshExpired

  /** Why refresh_token refuses a token, if it does: the first check that fails. */
  function Refusal(s: State, t: Token): (r: Option<SessionError>)
    ensures r.None? <==> MayRefresh(s, t) && AcceptsRefresh(s, t)
    ensures r == Some(TokenExpired) <==> t.exp < s.now
    ensures r == Some(UserMissing) <==> s.now <= t.exp && t.user !in s.users
    ensures r == Some(UserLocked) <==> s.now <= t.exp && t.user in s.users && !s.users[t.user].enabled
    ensures r == Some(RefreshExpired) <==> MayRefresh(s, t) && !AcceptsRefresh(s, t)
  {
    if s.now > t.exp then Some(TokenExpired)
    else if t.user !in s.users then Some(UserMissing)
    else if !s.users[t.user].enabled then Some(UserLocked)
    else if !s.users[t.user].multiLogin && LoggedInElsewhere(s, t.user, t.session) then Some(LoggedInElsewhereError)
    else if !AcceptsRefresh(s, t) then Some(RefreshExpired)
    else None
  }

  /** The checks that refresh_token makes before create_new_token. */
  predicate MayRefresh(s: State, t: Token) {
    && s.now <= t.exp && t.user in s.users && s.users[t.user].enabled
    && (s.users[t.user].multiLogin || !LoggedInElsewhere(s, t.user, t.session))
  }

  // ---------------------------------------------------------------- steps

  /** One request each; the password check of a login is taken to have succeeded. */
  datatype Step =
    | Tick(duration: nat)
    | AddUser(user: nat, multiLogin: bool)
    | SwaggerLogin(user: nat, session: string)
    | Login(user: nat, session: string)
    | RefreshTokens(token: Token, session: string)
    | Logout(token: Token, hasCookie: bool)
    | Revoke(user: nat, session: string)
    | SetStatus(user: nat, enabled: bool)
    | ChangeMultiLogin(user: nat, requester: nat, requesterSession: string)
    | ChangePassword(user: nat)
    | DeleteUser(user: nat)

  /** UUIDs are fresh, user ids are never reused, logins need an enabled user, a requester exists. */
  predicate Enabled(s: State, step: Step) {
    match step
    case AddUser(u, _) => u !in s.known
    case SwaggerLogin(u, session) => u in s.users && s.users[u].enabled && session !in s.used
    case Login(u, session) => u in s.users && s.users[u].enabled && session !in s.used
    case RefreshTokens(_, session) => session !in s.used
    case ChangeMultiLogin(_, requester, _) => requester in s.users
    case _ => true
  }

  function PurgeUser(s: State, user: nat): State {
    Purge(Purge(s, Access, user, {}), Refresh, user, {})
  }

  function Apply(s: State, step: Step): State
    requires Enabled(s, step)
  {
    match step
    case Tick(d) => s.(now := s.now + d)
    case AddUser(u, multi) => s.(users := s.users[u := User(multi, true)], known := s.known + {u})
    case SwaggerLogin(u, session) => CreateAccess(s, u, s.users[u].multiLogin, session)
    case Login(u, session) =>
      CreateRefresh(CreateAccess(s, u, s.users[u].multiLogin, session), u, s.users[u].multiLogin, session)
    case RefreshTokens(t, session) =>
      if MayRefresh(s, t) && AcceptsRefresh(s, t) then CreateNew(s, t, s.users[t.user].multiLogin, session) else s
    case Logout(t, hasCookie) =>
      if s.now > t.exp then s
      else
        var r := Remove(Remove(s, Access, t.user, t.session), Extra, t.user, t.session);
        if hasCookie then Remove(r, Refresh, t.user, t.session) else r
    case Revoke(u, session) => Remove(Remove(s, Access, u, session), Extra, u, session)
    case SetStatus(u, enabled) =>
      if u in s.users then s.(users := s.users[u := s.users[u].(enabled := enabled)]) else s
    case ChangeMultiLogin(u, requester, requesterSession) =>
      if u !in s.users then s
      else
        var newMultiLogin := !s.users[requester].multiLogin;
        var t := s.(users := s.users[u := s.users[u].(multiLogin := newMultiLogin)]);
        if !newMultiLogin then Purge(t, Access, u, {SessionKey(Access, u, requesterSession)}) else t
    case ChangePassword(u) => if u in s.users then PurgeUser(s, u) else s
    case DeleteUser(u) => if u in s.users then PurgeUser(s.(users := s.users - {u}), u) else s
  }

  ghost predicate Initial(s: State) {
    s.data == map[] && s.users == map[] && s.used == {} && s.known == {}
  }

  ghost predicate IsRun(states: seq<State>, steps: seq<Step>) {
    && |states| == |steps| + 1 && Initial(states[0])
    && forall k :: 0 <= k < |steps| ==> IsStep(states, steps, k)
  }

  /** The k-th request leads to the next state. */
  ghost predicate IsStep(states: seq<State>, steps: seq<Step>, k: nat)
    requires k < |steps| && |states| == |steps| + 1
  {
    Enabled(states[k], steps[k]) && states[k + 1] == Apply(states[k], steps[k])
  }

  // ---------------------------------------------------------------- at most one session

  ghost predicate IsOwnKey(k: string, user: nat) {
    UserPrefix(Access, user) + ":" <= k
  }

  /** At most one access key of the user is stored. */
  ghost predicate SingleKey(data: map<string, Entry>, user: nat) {
    forall j, k :: j in data && k in data && IsOwnKey(j, user) && IsOwnKey(k, user) ==> j == k
  }

  /** Every key belongs to a session and a user that exist or existed. */
  ghost predicate Filed(s: State, k: string) {
    exists f, u, session :: k == SessionKey(f, u, session) && session in s.used && u in s.known
  }

  ghost predicate Invariant(s: State) {
    && s.users.Keys <= s.known
    && (forall k :: k in s.data ==> Filed(s, k))
    && (forall u :: u in s.users && !s.users[u].multiLogin ==> SingleKey(s.data, u))
  }

  /** A purge that spares one key leaves at most that one. */
  lemma PurgeLeavesOne(data: map<string, Entry>, user: nat, spared: string)
    ensures SingleKey(Purged(data, UserPrefix(Access, user), {spared}), user)
    ensures SingleKey(Purged(data, UserPrefix(Access, user), {})[spared := Entry(Text, 0)], user)
  {
    var rest := Purged(data, UserPrefix(Access, user), {spared});
    forall k | k in rest && IsOwnKey(k, user) ensures k == spared {
    }
    var more := Purged(data, UserPrefix(Access, user), {})[spared := Entry(Text, 0)];
    forall k | k in more && IsOwnKey(k, user) ensures k == spared {
    }
  }

  /** A new session adds an access key to its own user only, and to no key that is already there. */
  lemma CreateAccessKeeps(s: State, user: nat, multiLogin: bool, session: string)
    requires Invariant(s) && user in s.known && (user in s.users ==> s.users[user].multiLogin == multiLogin)
    ensures Invariant(CreateAccess(s, user, multiLogin, session))
  {
    var t := CreateAccess(s, user, multiLogin, session);
    var key, extra := SessionKey(Access, user, session), SessionKey(Extra, user, session);
    forall k | k in t.data ensures Filed(t, k) {
      if k != key && k != extra {
        assert Filed(s, k);
      }
    }
    forall u | u in t.users && !t.users[u].multiLogin ensures SingleKey(t.data, u) {
      OwnKeys(Access, u, Access, user, session);
      OwnKeys(Access, u, Extra, user, session);
      if u == user {
        PurgeLeavesOne(s.data, user, key);
        assert forall k :: k in t.data && IsOwnKey(k, u) ==>
          k in Purged(s.data, UserPrefix(Access, user), {})[key := Entry(Text, 0)];
      } else {
        assert SingleKey(s.data, u);
        assert forall k :: k in t.data && IsOwnKey(k, u) ==> k in s.data;
      }
    }
  }

  lemma CreateRefreshKeeps(s: State, user: nat, multiLogin: bool, session: string)
    requires Invariant(s) && user in s.known && session in s.used
    ensures Invariant(CreateRefresh(s, user, multiLogin, session))
  {
    var t := CreateRefresh(s, user, multiLogin, session);
    var key := SessionKey(Refresh, user, session);
    forall k | k in t.data ensures Filed(t, k) {
      if k != key {
        assert Filed(s, k);
      }
    }
    forall u | u in t.users && !t.users[u].multiLogin ensures SingleKey(t.data, u) {
      OwnKeys(Access, u, Refresh, user, session);
      assert SingleKey(s.data, u);
      assert forall k :: k in t.data && IsOwnKey(k, u) ==> k in s.data;
    }
  }

  /** Deleting keys, and changing no flag to false, keeps the invariant. */
  lemma DeletionKeeps(s: State, t: State)
    requires Invariant(s) && t.data.Keys <= s.data.Keys && t.users.Keys <= s.users.Keys
    requires t.used == s.used && t.known == s.known
    requires forall u :: u in t.users ==> s.users[u].multiLogin == t.users[u].multiLogin
    ensures Invariant(t)
  {
    forall k | k in t.data ensures Filed(t, k) {
      assert Filed(s, k);
    }
    forall u | u in t.users && !t.users[u].multiLogin ensures SingleKey(t.data, u) {
    }
  }

  lemma AddUserKeeps(s: State, user: nat, multiLogin: bool)
    requires Invariant(s) && user !in s.known
    ensures Invariant(Apply(s, AddUser(user, multiLogin)))
  {
    var t := Apply(s, AddUser(user, multiLogin));
    forall k | k in t.data ensures Filed(t, k) && !IsOwnKey(k, user) {
      assert Filed(s, k);
      var f, u, session :| k == SessionKey(f, u, session) && session in s.used && u in s.known;
      OwnKeys(Access, user, f, u, session);
    }
  }

  lemma ChangeMultiLoginKeeps(s: State, user: nat, requester: nat, requesterSession: string)
    requires Invariant(s) && requester in s.users
    ensures Invariant(Apply(s, ChangeMultiLogin(user, requester, requesterSession)))
  {
    var t := Apply(s, ChangeMultiLogin(user, requester, requesterSession));
    if user in s.users {
      forall k | k in t.data ensures Filed(t, k) {
        assert Filed(s, k);
      }
      forall u | u in t.users && !t.users[u].multiLogin ensures SingleKey(t.data, u) {
        if u == user {
          PurgeLeavesOne(s.data, user, SessionKey(Access, user, requesterSession));
        }
      }
    }
  }

  lemma StepKeepsInvariant(s: State, step: Step)
    requires Invariant(s) && Enabled(s, step)
    ensures Invariant(Apply(s, step))
  {
    match step
    case Tick(_) => DeletionKeeps(s, Apply(s, step));
    case AddUser(u, multi) => AddUserKeeps(s, u, multi);
    case SwaggerLogin(u, session) => CreateAccessKeeps(s, u, s.users[u].multiLogin, session);
    case Login(u, session) =>
      CreateAccessKeeps(s, u, s.users[u].multiLogin, session);
      CreateRefreshKeeps(CreateAccess(s, u, s.users[u].multiLogin, session), u, s.users[u].multiLogin, session);
    case RefreshTokens(t, session) =>
      if MayRefresh(s, t) && AcceptsRefresh(s, t) {
        var multi := s.users[t.user].multiLogin;
        var r := Remove(Remove(s, Refresh, t.user, t.session), Access, t.user, t.session);
        DeletionKeeps(s, r);
        CreateAccessKeeps(r, t.user, multi, session);
        CreateRefreshKeeps(CreateAccess(r, t.user, multi, session), t.user, multi, session);
      }
    case Logout(_, _) => DeletionKeeps(s, Apply(s, step));
    case Revoke(_, _) => DeletionKeeps(s, Apply(s, step));
    case SetStatus(_, _) => DeletionKeeps(s, Apply(s, step));
    case ChangeMultiLogin(u, requester, session) => ChangeMultiLoginKeeps(s, u, requester, session);
    case ChangePassword(_) => DeletionKeeps(s, Apply(s, step));
    case DeleteUser(_) => DeletionKeeps(s, Apply(s, step));
  }

  lemma {:induction false} RunKeepsInvariant(states: seq<State>, steps: seq<Step>, k: nat)
    requires IsRun(states, steps) && k < |states|
    ensures Invariant(states[k])
  {
    if k > 0 {
      RunKeepsInvariant(states, steps, k - 1);
      assert IsStep(states, steps, k - 1);
      StepKeepsInvariant(states[k - 1], steps[k - 1]);
    }
  }

  /** In every state of every run, two accepted access tokens of a user without multi-login are the same. */
  lemma SingleSession(states: seq<State>, steps: seq<Step>, k: nat, a: Token, b: Token)
    requires IsRun(states, steps) && k < |states|
    requires a.user == b.user && a.user in states[k].users && !states[k].users[a.user].multiLogin
    requires AcceptsAccess(states[k], a) && AcceptsAccess(states[k], b)
    ensures a == b
  {
    RunKeepsInvariant(states, steps, k);
    OwnKeys(Access, a.user, Access, a.user, a.session);
    OwnKeys(Access, a.user, Access, b.user, b.session);
    assert SingleKey(states[k].data, a.user);
  }

  // ---------------------------------------------------------------- the life of a token

  /** What is stored for a session, expired or not. */
  function Stored(s: State, f: Family, user: nat, session: string): Option<Entry> {
    if SessionKey(f, user, session) in s.data then Some(s.data[SessionKey(f, user, session)]) else None
  }

  /** A user without multi-login who gets a session ends those of every user whose id extends the own. */
  predicate Evicts(s: State, u: nat, user: nat) {
    u in s.users && !s.users[u].multiLogin && Dec(u) <= Dec(user)
  }

  /** The requests that end what is stored in a family for a session. */
  predicate Ends(s: State, step: Step, f: Family, user: nat, session: string) {
    match step
    case SwaggerLogin(u, _) => f.Access? && Evicts(s, u, user)
    case Login(u, _) => !f.Extra? && Evicts(s, u, user)
    case RefreshTokens(r, _) =>
      !f.Extra? && Refusal(s, r).None? && ((r.user == user && r.session == session) || Evicts(s, r.user, user))
    case Logout(r, hasCookie) =>
      s.now <= r.exp && r.user == user && r.session == session && (f.Refresh? ==> hasCookie)
    case Revoke(u, x) => !f.Refresh? && u == user && x == session
    case ChangeMultiLogin(u, requester, spared) =>
      && f.Access? && u in s.users && requester in s.users && s.users[requester].multiLogin
      && Dec(u) <= Dec(user) && !(u == user && spared == session)
    case ChangePassword(u) => !f.Extra? && u in s.users && Dec(u) <= Dec(user)
    case DeleteUser(u) => !f.Extra? && u in s.users && Dec(u) <= Dec(user)
    case _ => false
  }

  lemma StoredAfterPurge(s: State, f: Family, u: nat, exclude: set<string>, g: Family, user: nat, session: string)
    ensures Stored(Purge(s, f, u, exclude), g, user, session) ==
      if f == g && Dec(u) <= Dec(user) && SessionKey(g, user, session) !in exclude then None
      else Stored(s, g, user, session)
  {
    PurgeReaches(f, u, g, user, session);
  }

  lemma StoredAfterRemove(s: State, f: Family, u: nat, x: string, g: Family, user: nat, session: string)
    ensures Stored(Remove(s, f, u, x), g, user, session) ==
      if f == g && u == user && x == session then None else Stored(s, g, user, session)
  {
    if SessionKey(f, u, x) == SessionKey(g, user, session) {
      SessionKeyIsInjective(f, u, x, g, user, session);
    }
  }

  lemma OtherSession(f: Family, u: nat, x: string, g: Family, user: nat, session: string)
    requires x != session
    ensures SessionKey(f, u, x) != SessionKey(g, user, session)
  {
    if SessionKey(f, u, x) == SessionKey(g, user, session) {
      SessionKeyIsInjective(f, u, x, g, user, session);
    }
  }

  lemma StoredAfterAccess(s: State, u: nat, multi: bool, x: string, g: Family, user: nat, session: string)
    requires x != session
    ensures Stored(CreateAccess(s, u, multi, x), g, user, session) ==
      if !multi && g.Access? && Dec(u) <= Dec(user) then None else Stored(s, g, user, session)
  {
    StoredAfterPurge(s, Access, u, {}, g, user, session);
    OtherSession(Access, u, x, g, user, session);
    OtherSession(Extra, u, x, g, user, session);
  }

  lemma StoredAfterRefresh(s: State, u: nat, multi: bool, x: string, g: Family, user: nat, session: string)
    requires x != session
    ensures Stored(CreateRefresh(s, u, multi, x), g, user, session) ==
      if !multi && g.Refresh? && Dec(u) <= Dec(user) then None else Stored(s, g, user, session)
  {
    StoredAfterPurge(s, Refresh, u, {}, g, user, session);
    OtherSession(Refresh, u, x, g, user, session);
  }

  lemma StoredAfterExchange(s: State, r: Token, x: string, g: Family, user: nat, session: string)
    requires Enabled(s, RefreshTokens(r, x)) && session in s.used
    ensures Stored(Apply(s, RefreshTokens(r, x)), g, user, session) ==
      if Ends(s, RefreshTokens(r, x), g, user, session) then None else Stored(s, g, user, session)
  {
    if Refusal(s, r).None? {
      var multi := s.users[r.user].multiLogin;
      var once := Remove(s, Refresh, r.user, r.session);
      var twice := Remove(once, Access, r.user, r.session);
      StoredAfterRemove(s, Refresh, r.user, r.session, g, user, session);
      StoredAfterRemove(once, Access, r.user, r.session, g, user, session);
      StoredAfterAccess(twice, r.user, multi, x, g, user, session);
      StoredAfterRefresh(CreateAccess(twice, r.user, multi, x), r.user, multi, x, g, user, session);
    }
  }

  lemma StoredAfterUserPurge(s: State, u: nat, g: Family, user: nat, session: string)
    ensures Stored(PurgeUser(s, u), g, user, session) ==
      if !g.Extra? && Dec(u) <= Dec(user) then None else Stored(s, g, user, session)
  {
    StoredAfterPurge(s, Access, u, {}, g, user, session);
    StoredAfterPurge(Purge(s, Access, u, {}), Refresh, u, {}, g, user, session);
  }

  lemma StoredAfterSwitch(s: State, u: nat, requester: nat, spared: string, g: Family, user: nat, session: string)
    requires requester in s.users
    ensures Stored(Apply(s, ChangeMultiLogin(u, requester, spared)), g, user, session) ==
      if Ends(s, ChangeMultiLogin(u, requester, spared), g, user, session) then None else Stored(s, g, user, session)
  {
    if u in s.users {
      StoredAfterPurge(s, Access, u, {SessionKey(Access, u, spared)}, g, user, session);
      if SessionKey(Access, u, spared) == SessionKey(g, user, session) {
        SessionKeyIsInjective(Access, u, spared, g, user, session);
      }
    }
  }

  /** One request ends exactly what it should, and changes nothing else that is stored for a session. */
  lemma StoredAfter(s: State, step: Step, f: Family, user: nat, session: string)
    requires Enabled(s, step) && session in s.used
    ensures Stored(Apply(s, step), f, user, session) ==
      if Ends(s, step, f, user, session) then None else Stored(s, f, user, session)
  {
    match step
    case SwaggerLogin(u, x) => StoredAfterAccess(s, u, s.users[u].multiLogin, x, f, user, session);
    case Login(u, x) =>
      var multi := s.users[u].multiLogin;
      StoredAfterAccess(s, u, multi, x, f, user, session);
      StoredAfterRefresh(CreateAccess(s, u, multi, x), u, multi, x, f, user, session);
    case RefreshTokens(r, x) => StoredAfterExchange(s, r, x, f, user, session);
    case Logout(r, hasCookie) =>
      var once := Remove(s, Access, r.user, r.session);
      var twice := Remove(once, Extra, r.user, r.session);
      StoredAfterRemove(s, Access, r.user, r.session, f, user, session);
      StoredAfterRemove(once, Extra, r.user, r.session, f, user, session);
      StoredAfterRemove(twice, Refresh, r.user, r.session, f, user, session);
    case Revoke(u, x) =>
      StoredAfterRemove(s, Access, u, x, f, user, session);
      StoredAfterRemove(Remove(s, Access, u, x), Extra, u, x, f, user, session);
    case ChangeMultiLogin(u, requester, spared) => StoredAfterSwitch(s, u, requester, spared, f, user, session);
    case ChangePassword(u) => StoredAfterUserPurge(s, u, f, user, session);
    case DeleteUser(u) => StoredAfterUserPurge(s.(users := s.users - {u}), u, f, user, session);
    case _ =>
  }

  ghost predicate EndedBetween(states: seq<State>, steps: seq<Step>, k: nat, m: nat, f: Family, user: nat,
                               session: string)
    requires k <= m <= |steps| < |states|
  {
    exists i :: k <= i < m && Ends(states[i], steps[i], f, user, session)
  }

  lemma EndedNext(states: seq<State>, steps: seq<Step>, k: nat, m: nat, f: Family, user: nat, session: string)
    requires k <= m < |steps| < |states|
    ensures EndedBetween(states, steps, k, m + 1, f, user, session) <==>
      EndedBetween(states, steps, k, m, f, user, session) || Ends(states[m], steps[m], f, user, session)
  {
  }

  lemma UsedStaysUsed(s: State, step: Step)
    requires Enabled(s, step)
    ensures s.used <= Apply(s, step).used
  {
  }

  /** Over a run: what is stored for a session stays as it is until a request ends it, and then stays away. */
  lemma {:induction false} StoredLater(states: seq<State>, steps: seq<Step>, k: nat, m: nat, f: Family, user: nat,
                                       session: string)
    requires IsRun(states, steps) && k <= m < |states| && session in states[k].used
    ensures session in states[m].used
    ensures Stored(states[m], f, user, session) ==
      if EndedBetween(states, steps, k, m, f, user, session) then None else Stored(states[k], f, user, session)
  {
    if k < m {
      StoredLater(states, steps, k, m - 1, f, user, session);
      assert IsStep(states, steps, m - 1);
      UsedStaysUsed(states[m - 1], steps[m - 1]);
      StoredAfter(states[m - 1], steps[m - 1], f, user, session);
      EndedNext(states, steps, k, m - 1, f, user, session);
    }
  }

  /** Stored tokens expire with their keys. */
  ghost predicate Stamped(s: State) {
    forall k :: k in s.data && s.data[k].value.Jwt? ==> s.data[k].expires == s.data[k].value.token.exp
  }

  lemma {:induction false} RunIsStamped(states: seq<State>, steps: seq<Step>, k: nat)
    requires IsRun(states, steps) && k < |states|
    ensures Stamped(states[k])
  {
    if k > 0 {
      RunIsStamped(states, steps, k - 1);
      assert IsStep(states, steps, k - 1);
      StepKeepsStamped(states[k - 1], steps[k - 1]);
    }
  }

  lemma StepKeepsStamped(s: State, step: Step)
    requires Stamped(s) && Enabled(s, step)
    ensures Stamped(Apply(s, step))
  {
  }

  /** The family of the keys under which a token may be stored accepts it. */
  predicate Accepts(s: State, f: Family, t: Token) {
    if f.Access? then AcceptsAccess(s, t) else f.Refresh? && AcceptsRefresh(s, t)
  }

  /**
   * The life of a token, over whole runs: once accepted it is accepted exactly
   * until it expires or some request ends its session in its family.
   */
  lemma AcceptedUntilEnded(states: seq<State>, steps: seq<Step>, k: nat, m: nat, f: Family, t: Token)
    requires IsRun(states, steps) && k <= m < |states| && Accepts(states[k], f, t)
    ensures Accepts(states[m], f, t) <==>
      states[m].now < t.exp && !EndedBetween(states, steps, k, m, f, t.user, t.session)
  {
    RunKeepsInvariant(states, steps, k);
    RunIsStamped(states, steps, k);
    StoredSessionIsUsed(states[k], f, t.user, t.session);
    StoredLater(states, steps, k, m, f, t.user, t.session);
  }

  /** The request gives out tokens of the family for the session. */
  predicate Gives(s: State, step: Step, f: Family, user: nat, session: string) {
    match step
    case SwaggerLogin(u, x) => f.Access? && user == u && session == x
    case Login(u, x) => !f.Extra? && user == u && session == x
    case RefreshTokens(r, x) => !f.Extra? && Refusal(s, r).None? && user == r.user && session == x
    case _ => false
  }

  /** Access tokens live a day, refresh tokens a week. */
  function Lifetime(f: Family): int {
    if f.Access? then 24 * 60 * 60 else 7 * 24 * 60 * 60
  }

  /** A token that expires with its key. */
  function FreshEntry(s: State, f: Family, user: nat, session: string): Entry {
    Entry(Jwt(Token(session, s.now + Lifetime(f), user)), s.now + Lifetime(f))
  }

  /** The birth of a token: a request makes a token of an unused session accepted exactly if it gives it out. */
  lemma AcceptedOnceIssued(s: State, step: Step, f: Family, t: Token)
    requires Invariant(s) && Enabled(s, step) && t.session !in s.used
    ensures Accepts(Apply(s, step), f, t) <==>
      Gives(s, step, f, t.user, t.session) && t.exp == s.now + Lifetime(f)
  {
    if !f.Extra? {
      StoredOnceGiven(s, step, f, t.user, t.session);
      AcceptsStored(Apply(s, step), f, t);
      if Gives(s, step, f, t.user, t.session) {
        GivingTakesNoTime(s, step, f, t.user, t.session);
      }
    }
  }

  lemma AcceptsStored(s: State, f: Family, t: Token)
    requires !f.Extra?
    ensures Accepts(s, f, t) <==>
      var e := Stored(s, f, t.user, t.session);
      e.Some? && e.value.value == Jwt(t) && s.now < e.value.expires && (f.Access? ==> s.now <= t.exp)
  {
  }

  lemma GivingTakesNoTime(s: State, step: Step, f: Family, user: nat, session: string)
    requires Enabled(s, step) && Gives(s, step, f, user, session)
    ensures Apply(s, step).now == s.now
  {
  }

  lemma StoredOnceGiven(s: State, step: Step, f: Family, user: nat, session: string)
    requires Invariant(s) && Enabled(s, step) && session !in s.used && !f.Extra?
    ensures Stored(Apply(s, step), f, user, session) ==
      if Gives(s, step, f, user, session) then Some(FreshEntry(s, f, user, session)) else None
  {
    UnusedHoldsNothing(s, f, user, session);
    match step
    case SwaggerLogin(u, x) => NewAccessIsStored(s, u, s.users[u].multiLogin, x, f, user, session);
    case Login(u, x) => NewPairIsStored(s, u, s.users[u].multiLogin, x, f, user, session);
    case RefreshTokens(r, x) => NewPairIsExchanged(s, r, x, f, user, session);
    case _ => DeletesOnly(s, step, f, user, session);
  }

  lemma NewPairIsExchanged(s: State, r: Token, x: string, f: Family, user: nat, session: string)
    requires Enabled(s, RefreshTokens(r, x)) && Stored(s, f, user, session) == None && !f.Extra?
    ensures Stored(Apply(s, RefreshTokens(r, x)), f, user, session) ==
      if Gives(s, RefreshTokens(r, x), f, user, session) then Some(FreshEntry(s, f, user, session)) else None
  {
    if Refusal(s, r).None? {
      var once := Remove(s, Refresh, r.user, r.session);
      StoredAfterRemove(s, Refresh, r.user, r.session, f, user, session);
      StoredAfterRemove(once, Access, r.user, r.session, f, user, session);
      NewPairIsStored(Remove(once, Access, r.user, r.session), r.user, s.users[r.user].multiLogin, x, f, user, session);
    }
  }

  lemma DeletesOnly(s: State, step: Step, f: Family, user: nat, session: string)
    requires Enabled(s, step) && Stored(s, f, user, session) == None
    requires !step.SwaggerLogin? && !step.Login? && !step.RefreshTokens?
    ensures Stored(Apply(s, step), f, user, session) == None
  {
  }

  lemma UnusedHoldsNothing(s: State, f: Family, user: nat, session: string)
    requires Invariant(s) && session !in s.used
    ensures Stored(s, f, user, session) == None
  {
    if SessionKey(f, user, session) in s.data {
      StoredSessionIsUsed(s, f, user, session);
    }
  }

  lemma NewAccessIsStored(s: State, u: nat, multi: bool, x: string, f: Family, user: nat, session: string)
    requires Stored(s, f, user, session) == None && !f.Extra?
    ensures Stored(CreateAccess(s, u, multi, x), f, user, session) ==
      if f.Access? && user == u && session == x then Some(FreshEntry(s, f, user, session)) else None
  {
    StoredAfterPurge(s, Access, u, {}, f, user, session);
    if SessionKey(Access, u, x) == SessionKey(f, user, session) {
      SessionKeyIsInjective(Access, u, x, f, user, session);
    }
    if SessionKey(Extra, u, x) == SessionKey(f, user, session) {
      SessionKeyIsInjective(Extra, u, x, f, user, session);
    }
    KeysOfSessionDiffer(u, x);
  }

  lemma NewPairIsStored(s: State, u: nat, multi: bool, x: string, f: Family, user: nat, session: string)
    requires Stored(s, f, user, session) == None && !f.Extra?
    ensures Stored(CreateRefresh(CreateAccess(s, u, multi, x), u, multi, x), f, user, session) ==
      if user == u && session == x then Some(FreshEntry(s, f, user, session)) else None
  {
    var t := CreateAccess(s, u, multi, x);
    NewAccessIsStored(s, u, multi, x, f, user, session);
    StoredAfterPurge(t, Refresh, u, {}, f, user, session);
    if SessionKey(Refresh, u, x) == SessionKey(f, user, session) {
      SessionKeyIsInjective(Refresh, u, x, f, user, session);
    }
  }

  /**
   * Logging out ends the session for good: its access token, and with the cookie
   * its refresh token, are accepted in no later state.  Nothing else ends.
   */
  lemma LogoutEndsSession(states: seq<State>, steps: seq<Step>, k: nat, m: nat, r: Token, hasCookie: bool, t: Token)
    requires IsRun(states, steps) && k < |steps| && k < m < |states| && steps[k] == Logout(r, hasCookie)
    requires states[k].now <= r.exp && r.session in states[k].used && t.session in states[k].used
    ensures t.user == r.user && t.session == r.session ==>
      !AcceptsAccess(states[m], t) && (hasCookie ==> !AcceptsRefresh(states[m], t))
    ensures t.user != r.user || t.session != r.session ==>
      (AcceptsAccess(states[k + 1], t) <==> AcceptsAccess(states[k], t))
    ensures t.user != r.user || t.session != r.session || !hasCookie ==>
      (AcceptsRefresh(states[k + 1], t) <==> AcceptsRefresh(states[k], t))
  {
    assert IsStep(states, steps, k);
    StoredAfter(states[k], steps[k], Access, t.user, t.session);
    StoredAfter(states[k], steps[k], Refresh, t.user, t.session);
    StoredLater(states, steps, k, m, Access, t.user, t.session);
    StoredLater(states, steps, k, m, Refresh, t.user, t.session);
    assert Ends(states[k], steps[k], Access, r.user, r.session);
    assert hasCookie ==> Ends(states[k], steps[k], Refresh, r.user, r.session);
  }

  /** The user table and the clock: who exists, who is enabled, who may log in more than once. */
  lemma UsersAfter(s: State, step: Step, u: nat)
    requires Invariant(s) && Enabled(s, step)
    ensures var t := Apply(s, step);
      && t.now == s.now + (if step.Tick? then step.duration else 0)
      && (u in t.users <==> (u in s.users && step != DeleteUser(u)) || (step.AddUser? && step.user == u))
      && (u in t.users && u in s.users ==>
           && t.users[u].enabled == (if step.SetStatus? && step.user == u then step.enabled else s.users[u].enabled)
           && t.users[u].multiLogin ==
                (if step.ChangeMultiLogin? && step.user == u then !s.users[step.requester].multiLogin
                 else s.users[u].multiLogin))
      && (u in t.users && u !in s.users ==> t.users[u] == User(step.multiLogin, true))
  {
  }

  // ---------------------------------------------------------------- dead tokens

  /** No token is stored under a session that has been used. */
  ghost predicate Gone(s: State, f: Family, user: nat, session: string) {
    session in s.used && SessionKey(f, user, session) !in s.data
  }

  lemma CreateKeepsGone(s: State, f: Family, user: nat, session: string, u: nat, multi: bool, session': string)
    requires Gone(s, f, user, session) && session' !in s.used
    ensures Gone(CreateAccess(s, u, multi, session'), f, user, session)
    ensures Gone(CreateRefresh(CreateAccess(s, u, multi, session'), u, multi, session'), f, user, session)
  {
    forall g | SessionKey(g, u, session') == SessionKey(f, user, session) ensures false {
      SessionKeyIsInjective(g, u, session', f, user, session);
    }
    assert SessionKey(Access, u, session') != SessionKey(f, user, session);
    assert SessionKey(Extra, u, session') != SessionKey(f, user, session);
    assert SessionKey(Refresh, u, session') != SessionKey(f, user, session);
  }

  lemma StepKeepsGone(s: State, step: Step, f: Family, user: nat, session: string)
    requires Enabled(s, step) && Gone(s, f, user, session)
    ensures Gone(Apply(s, step), f, user, session)
  {
    match step
    case SwaggerLogin(u, session') => CreateKeepsGone(s, f, user, session, u, s.users[u].multiLogin, session');
    case Login(u, session') => CreateKeepsGone(s, f, user, session, u, s.users[u].multiLogin, session');
    case RefreshTokens(t, session') =>
      if MayRefresh(s, t) && AcceptsRefresh(s, t) {
        var r := Remove(Remove(s, Refresh, t.user, t.session), Access, t.user, t.session);
        CreateKeepsGone(r, f, user, session, t.user, s.users[t.user].multiLogin, session');
      }
    case _ =>
  }

  lemma {:induction false} GoneForever(states: seq<State>, steps: seq<Step>, k: nat, m: nat, f: Family, user: nat,
                                       session: string)
    requires IsRun(states, steps) && k <= m < |states| && Gone(states[k], f, user, session)
    ensures Gone(states[m], f, user, session)
  {
    if k < m {
      GoneForever(states, steps, k, m - 1, f, user, session);
      assert IsStep(states, steps, m - 1);
      StepKeepsGone(states[m - 1], steps[m - 1], f, user, session);
    }
  }

  /** What a stored key's session has been used. */
  lemma StoredSessionIsUsed(s: State, f: Family, user: nat, session: string)
    requires Invariant(s) && SessionKey(f, user, session) in s.data
    ensures session in s.used && user in s.known
  {
    assert Filed(s, SessionKey(f, user, session));
    var g, u, t :| SessionKey(f, user, session) == SessionKey(g, u, t) && t in s.used && u in s.known;
    SessionKeyIsInjective(f, user, session, g, u, t);
  }

  /** A refresh token that was exchanged is never accepted again. */
  lemma RefreshTokensWorkOnce(states: seq<State>, steps: seq<Step>, k: nat, m: nat)
    requires IsRun(states, steps) && k < |steps| && k < m < |states|
    requires steps[k].RefreshTokens?
    requires MayRefresh(states[k], steps[k].token) && AcceptsRefresh(states[k], steps[k].token)
    ensures !AcceptsRefresh(states[m], steps[k].token)
  {
    var s, t, session' := states[k], steps[k].token, steps[k].session;
    assert IsStep(states, steps, k);
    RunKeepsInvariant(states, steps, k);
    StoredSessionIsUsed(s, Refresh, t.user, t.session);
    var r := Remove(Remove(s, Refresh, t.user, t.session), Access, t.user, t.session);
    assert Gone(r, Refresh, t.user, t.session);
    CreateKeepsGone(r, Refresh, t.user, t.session, t.user, s.users[t.user].multiLogin, session');
    GoneForever(states, steps, k + 1, m, Refresh, t.user, t.session);
  }

  /** After a password change or deletion, no token issued earlier to the user is ever accepted. */
  lemma PurgedTokensStayDead(states: seq<State>, steps: seq<Step>, k: nat, m: nat, t: Token)
    requires IsRun(states, steps) && k < |steps| && k < m < |states|
    requires steps[k] == ChangePassword(t.user) || steps[k] == DeleteUser(t.user)
    requires t.user in states[k].users && t.session in states[k].used
    ensures !AcceptsAccess(states[m], t) && !AcceptsRefresh(states[m], t)
  {
    PurgeReaches(Access, t.user, Access, t.user, t.session);
    PurgeReaches(Refresh, t.user, Refresh, t.user, t.session);
    assert IsStep(states, steps, k);
    assert Gone(states[k + 1], Access, t.user, t.session) && Gone(states[k + 1], Refresh, t.user, t.session);
    GoneForever(states, steps, k + 1, m, Access, t.user, t.session);
    GoneForever(states, steps, k + 1, m, Refresh, t.user, t.session);
  }

  /** A purge keeps another user's sessions exactly when that user's decimal id does not extend the purged one. */
  lemma PurgeSparesOthers(s: State, user: nat, other: nat, f: Family, session: string)
    requires f.Access? || f.Refresh?
    requires SessionKey(f, other, session) in s.data
    ensures SessionKey(f, other, session) in PurgeUser(s, user).data <==> !(Dec(user) <= Dec(other))
  {
    PurgeReaches(Access, user, f, other, session);
    PurgeReaches(Refresh, user, f, other, session);
  }

  /** The last step changes a user's password, and the token is accepted before it but not after. */
  ghost predicate LogsOut(states: seq<State>, steps: seq<Step>, user: nat, t: Token) {
    && IsRun(states, steps) && steps != [] && steps[|steps| - 1] == ChangePassword(user)
    && AcceptsAccess(states[|steps| - 1], t) && !AcceptsAccess(states[|steps|], t)
  }

  /** A run, one step longer. */
  lemma Extend(states: seq<State>, steps: seq<Step>, step: Step)
    returns (longer: seq<State>, more: seq<Step>, last: State)
    requires IsRun(states, steps) && Enabled(states[|steps|], step)
    ensures IsRun(longer, more) && more == steps + [step] && last == longer[|more|]
    ensures last == Apply(states[|steps|], step) && longer[|steps|] == states[|steps|]
  {
    last := Apply(states[|steps|], step);
    longer, more := states + [last], steps + [step];
    forall k | 0 <= k < |more| ensures IsStep(longer, more, k) {
      assert k < |steps| ==> IsStep(states, steps, k);
    }
  }

  /** Two users, of whom the other logs in. */
  lemma OtherLogsIn(user: nat, other: nat) returns (states: seq<State>, steps: seq<Step>, t: Token)
    ensures IsRun(states, steps) && t.user == other && user in states[|steps|].users
    ensures AcceptsAccess(states[|steps|], t)
  {
    var s := SessionState(0, map[], map[], {}, {});
    states, steps := [s], [];
    states, steps, s := Extend(states, steps, AddUser(user, true));
    if other != user {
      states, steps, s := Extend(states, steps, AddUser(other, true));
    }
    var before := s;
    states, steps, s := Extend(states, steps, SwaggerLogin(other, ""));
    t := IssuedAccess(before, other, "");
    KeysOfSessionDiffer(other, "");
  }

  /** A password change can log out exactly the users whose decimal id extends that of the user. */
  lemma LoggedOutIff(user: nat, other: nat)
    ensures (exists states, steps, t: Token :: LogsOut(states, steps, user, t) && t.user == other) <==>
            Dec(user) <= Dec(other)
  {
    if states, steps, t: Token :| LogsOut(states, steps, user, t) && t.user == other {
      assert IsStep(states, steps, |steps| - 1);
      LogoutNeedsPrefix(states[|steps| - 1], user, t);
    }
    if Dec(user) <= Dec(other) {
      var states, steps, t := OtherLogsIn(user, other);
      var before := states[|steps|];
      PurgeSparesOthers(before, user, other, Access, t.session);
      var last;
      states, steps, last := Extend(states, steps, ChangePassword(user));
      assert LogsOut(states, steps, user, t);
    }
  }

  lemma LogoutNeedsPrefix(s: State, user: nat, t: Token)
    requires AcceptsAccess(s, t) && !AcceptsAccess(Apply(s, ChangePassword(user)), t)
    ensures Dec(user) <= Dec(t.user)
  {
    PurgeSparesOthers(s, user, t.user, Access, t.session);
  }

  /** For instance, some run logs out user 12 when user 1 changes the password, and none does when user 2 does. */
  lemma TwelveLosesToOne()
    ensures exists states, steps, t: Token :: LogsOut(states, steps, 1, t) && t.user == 12
    ensures !exists states, steps, t: Token :: LogsOut(states, steps, 2, t) && t.user == 12
  {
    assert Dec(12) == Dec(1) + [Digit(2)];
    assert Dec(1) == [Digit(1)] && Dec(2) == [Digit(2)];
    assert Digit(1) == '1' && Digit(2) == '2' && Dec(12)[0] == '1';
    LoggedOutIff(1, 12);
    LoggedOutIff(2, 12);
  }

  // ---------------------------------------------------------------- the permission switch

  /** The switch negates the requester's flag, so it toggles the user's own flag only when the two agree. */
  lemma SwitchFollowsRequester(s: State, user: nat, requester: nat, requesterSession: string)
    requires user in s.users && requester in s.users
    ensures var t := Apply(s, ChangeMultiLogin(user, requester, requesterSession));
      && t.users[user].multiLogin == !s.users[requester].multiLogin
      && (t.users[user].multiLogin != s.users[user].multiLogin <==>
           s.users[requester].multiLogin == s.users[user].multiLogin)
  {
  }

  /** The last step switches the flag of a user; before it the user and the requester have the given flags. */
  ghost predicate Switches(states: seq<State>, steps: seq<Step>, user: nat, requester: nat, flag: bool,
                           requesters: bool)
  {
    && IsRun(states, steps) && steps != []
    && var last, s := steps[|steps| - 1], states[|steps| - 1];
       && last.ChangeMultiLogin? && last.user == user && last.requester == requester
       && user in s.users && s.users[user].multiLogin == flag
       && requester in s.users && s.users[requester].multiLogin == requesters
  }

  /** And it leaves the flag as it was. */
  ghost predicate SwitchesInVain(states: seq<State>, steps: seq<Step>, user: nat, requester: nat, flag: bool,
                                 requesters: bool)
  {
    && Switches(states, steps, user, requester, flag, requesters)
    && user in states[|steps|].users && states[|steps|].users[user].multiLogin == flag
  }

  /** A switch by another user can be in vain exactly for the flags that differ, and then it always is. */
  lemma SwitchInVainIff(user: nat, requester: nat, flag: bool, requesters: bool)
    requires user != requester
    ensures (exists states, steps :: SwitchesInVain(states, steps, user, requester, flag, requesters)) <==>
            flag != requesters
    ensures forall states, steps :: flag != requesters && Switches(states, steps, user, requester, flag, requesters) ==>
      SwitchesInVain(states, steps, user, requester, flag, requesters)
  {
    forall states, steps | Switches(states, steps, user, requester, flag, requesters)
      ensures SwitchesInVain(states, steps, user, requester, flag, requesters) <==> flag != requesters
    {
      SwitchEnds(states, steps, user, requester, flag, requesters);
    }
    var states, steps := SomeSwitch(user, requester, flag, requesters);
  }

  lemma SwitchEnds(states: seq<State>, steps: seq<Step>, user: nat, requester: nat, flag: bool, requesters: bool)
    requires Switches(states, steps, user, requester, flag, requesters)
    ensures SwitchesInVain(states, steps, user, requester, flag, requesters) <==> flag != requesters
  {
    assert IsStep(states, steps, |steps| - 1);
  }

  lemma SomeSwitch(user: nat, requester: nat, flag: bool, requesters: bool)
    returns (states: seq<State>, steps: seq<Step>)
    requires user != requester
    ensures Switches(states, steps, user, requester, flag, requesters)
  {
    var s := SessionState(0, map[], map[], {}, {});
    states, steps := [s], [];
    states, steps, s := Extend(states, steps, AddUser(user, flag));
    states, steps, s := Extend(states, steps, AddUser(requester, requesters));
    states, steps, s := Extend(states, steps, ChangeMultiLogin(user, requester, ""));
  }

  // ---------------------------------------------------------------- what outlives a revocation

  lemma KeysDiffer(f: Family, u: nat, x: string, g: Family, v: nat, y: string)
    requires f != g
    ensures SessionKey(f, u, x) != SessionKey(g, v, y)
  {
    if SessionKey(f, u, x) == SessionKey(g, v, y) {
      SessionKeyIsInjective(f, u, x, g, v, y);
    }
  }

  /** Revoking a session and switching off multi-login leave every refresh token accepted. */
  lemma RefreshTokensOutlive(s: State, step: Step, t: Token)
    requires Enabled(s, step) && (step.Revoke? || step.ChangeMultiLogin?)
    ensures AcceptsRefresh(Apply(s, step), t) <==> AcceptsRefresh(s, t)
  {
    match step
    case Revoke(u, session) =>
      KeysDiffer(Refresh, t.user, t.session, Access, u, session);
      KeysDiffer(Refresh, t.user, t.session, Extra, u, session);
    case ChangeMultiLogin(u, _, _) => PurgeReaches(Access, u, Refresh, t.user, t.session);
  }

  lemma OwnKeyEnds(user: nat, session: string)
    ensures EndsWith(SessionKey(Access, user, session), ":" + session)
  {
    assert SessionKey(Access, user, session) == UserPrefix(Access, user) + (":" + session);
  }

  /** A revoked session can be exchanged exactly when it could before: the revocation ends no session. */
  lemma RevokedSessionReturnsIff(s: State, t: Token)
    ensures Refusal(Apply(s, Revoke(t.user, t.session)), t) == Refusal(s, t)
  {
    var r := Apply(s, Revoke(t.user, t.session));
    RefreshTokensOutlive(s, Revoke(t.user, t.session), t);
    OwnKeyEnds(t.user, t.session);
    OwnKeys(Access, t.user, Extra, t.user, t.session);
    if LoggedInElsewhere(s, t.user, t.session) {
      var k :| k in s.data && s.now < s.data[k].expires
        && UserPrefix(Access, t.user) + ":" <= k && !EndsWith(k, ":" + t.session);
      assert k in r.data;
    }
  }

  /** The requester's session is the user's own, live, and another one than the token's. */
  predicate RequesterRemains(s: State, requesterSession: string, t: Token) {
    var key := SessionKey(Access, t.user, requesterSession);
    key in s.data && s.now < s.data[key].expires && !EndsWith(key, ":" + t.session)
  }

  /**
   * A session evicted by switching off multi-login can be exchanged exactly when
   * its refresh token is stored and unexpired, the user is enabled, and the
   * requester's session, which alone is spared, is not another one of the user.
   */
  lemma EvictedSessionReturnsIff(s: State, requester: nat, requesterSession: string, t: Token)
    requires t.user in s.users && requester in s.users && s.users[requester].multiLogin
    ensures var after := Apply(s, ChangeMultiLogin(t.user, requester, requesterSession));
      Refusal(after, t).None? <==>
        && s.now <= t.exp && s.users[t.user].enabled && AcceptsRefresh(s, t)
        && !RequesterRemains(s, requesterSession, t)
  {
    var step := ChangeMultiLogin(t.user, requester, requesterSession);
    RefreshTokensOutlive(s, step, t);
  }

  /** Such sessions occur: after a revocation the refresh token still buys an accepted access token. */
  lemma RevokedSessionReturns(user: nat) returns (states: seq<State>, steps: seq<Step>, t: Token)
    ensures IsRun(states, steps) && |steps| == 4 && steps[2] == Revoke(user, t.session) && t.user == user
    ensures steps[3].RefreshTokens? && AcceptsAccess(states[4], IssuedAccess(states[3], user, steps[3].session))
  {
    var s := SessionState(0, map[], map[], {}, {});
    states, steps := [s], [];
    states, steps, s := Extend(states, steps, AddUser(user, true));
    states, steps, s := LoggedIn(states, steps, user, "a");
    t := IssuedRefresh(s, user, "a");
    states, steps, s := Extend(states, steps, Revoke(user, "a"));
    RevokedSessionReturnsIff(states[2], t);
    states, steps, s := Extend(states, steps, RefreshTokens(t, "b"));
    NewTokensAreAccepted(states[3], t, true, "b");
  }

  lemma LoggedIn(states: seq<State>, steps: seq<Step>, user: nat, session: string)
    returns (longer: seq<State>, more: seq<Step>, last: State)
    requires IsRun(states, steps) && Enabled(states[|steps|], Login(user, session))
    ensures IsRun(longer, more) && more == steps + [Login(user, session)] && last == longer[|more|]
    ensures last.now == states[|steps|].now && last.users == states[|steps|].users
    ensures last.used == states[|steps|].used + {session}
    ensures AcceptsRefresh(last, IssuedRefresh(last, user, session))
  {
    longer, more, last := Extend(states, steps, Login(user, session));
  }

  lemma NewTokensAreAccepted(s: State, t: Token, multiLogin: bool, session: string)
    requires AcceptsRefresh(s, t)
    ensures AcceptsAccess(CreateNew(s, t, multiLogin, session), IssuedAccess(s, t.user, session))
  {
    var r := Remove(Remove(s, Refresh, t.user, t.session), Access, t.user, t.session);
    KeysOfSessionDiffer(t.user, session);
    AccessSurvivesRefresh(CreateAccess(r, t.user, multiLogin, session), t.user, multiLogin, session);
  }

  // ---------------------------------------------------------------- the service

  /** The token functions and session services over the Redis client and the user table. */
  class SessionService {
    const redis: RedisCli<Entry>
    var now: int
    var users: map<nat, User>
    ghost var used: set<string>
    ghost var known: set<nat>

    constructor (now: int)
      ensures Current() == SessionState(now, map[], map[], {}, {}) && fresh(redis)
    {
      this.redis := new RedisCli<Entry>();
      this.now, users, used, known := now, map[], {}, {};
    }

    ghost function Current(): State
      reads this, redis
    {
      SessionState(now, redis.data, users, used, known)
    }

    method Lookup(key: string) returns (value: Option<Value>)
      ensures value == Get(Current(), key)
    {
      value := if key in redis.data && now < redis.data[key].expires then Some(redis.data[key].value) else None;
    }

    method SetEx(key: string, value: Value, ttl: int)
      modifies redis
      ensures Current() == Set(old(Current()), key, value, ttl)
    {
      redis.data := redis.data[key := Entry(value, now + ttl)];
    }

    method RemoveKey(f: Family, user: nat, session: string)
      modifies redis
      ensures Current() == Remove(old(Current()), f, user, session)
    {
      redis.Delete([SessionKey(f, user, session)]);
    }

    method PurgePrefix(f: Family, user: nat, exclude: set<string>)
      modifies redis
      ensures Current() == Purge(old(Current()), f, user, exclude)
    {
      redis.DeletePrefix(UserPrefix(f, user), exclude);
    }

    method CreateAccessToken(user: nat, multiLogin: bool, session: string) returns (token: Token)
      modifies this, redis
      ensures Current() == CreateAccess(old(Current()), user, multiLogin, session)
      ensures token == IssuedAccess(old(Current()), user, session)
    {
      if !multiLogin {
        PurgePrefix(Access, user, {});
      }
      token := StoreAccess(user, session);
    }

    method StoreAccess(user: nat, session: string) returns (token: Token)
      modifies this, redis
      ensures Current() == WithAccess(old(Current()), user, session)
      ensures token == IssuedAccess(old(Current()), user, session)
    {
      token := Token(session, now + TOKEN_EXPIRE_SECONDS, user);
      SetEx(SessionKey(Access, user, session), Jwt(token), TOKEN_EXPIRE_SECONDS);
      SetEx(SessionKey(Extra, user, session), Text, TOKEN_EXPIRE_SECONDS);
      used := used + {session};
    }

    method CreateRefreshToken(user: nat, multiLogin: bool, session: string) returns (token: Token)
      modifies redis
      ensures Current() == CreateRefresh(old(Current()), user, multiLogin, session)
      ensures token == IssuedRefresh(old(Current()), user, session)
    {
      token := Token(session, now + TOKEN_REFRESH_EXPIRE_SECONDS, user);
      if !multiLogin {
        PurgePrefix(Refresh, user, {});
      }
      SetEx(SessionKey(Refresh, user, session), Jwt(token), TOKEN_REFRESH_EXPIRE_SECONDS);
    }

    method SwaggerLogin(user: nat, session: string) returns (access: Token)
      requires Enabled(Current(), Step.SwaggerLogin(user, session))
      modifies this, redis
      ensures Current() == Apply(old(Current()), Step.SwaggerLogin(user, session))
      ensures AcceptsAccess(Current(), access)
    {
      access := CreateAccessToken(user, users[user].multiLogin, session);
      KeysOfSessionDiffer(user, session);
    }

    method RevokeToken(user: nat, session: string)
      modifies redis
      ensures Current() == Apply(old(Current()), Revoke(user, session))
      ensures forall t: Token :: t.user == user && t.session == session ==> !AcceptsAccess(Current(), t)
    {
      RemoveKey(Access, user, session);
      RemoveKey(Extra, user, session);
    }

    method Login(user: nat, session: string) returns (access: Token, refresh: Token)
      requires Enabled(Current(), Step.Login(user, session))
      modifies this, redis
      ensures Current() == Apply(old(Current()), Step.Login(user, session))
      ensures AcceptsAccess(Current(), access) && AcceptsRefresh(Current(), refresh)
    {
      var multiLogin := users[user].multiLogin;
      access := CreateAccessToken(user, multiLogin, session);
      ghost var t := Current();
      refresh := CreateRefreshToken(user, multiLogin, session);
      AccessSurvivesRefresh(t, user, multiLogin, session);
    }

    /** create_new_token */
    method CreateNewToken(token: Token, multiLogin: bool, session: string)
      returns (r: Result<(Token, Token), SessionError>)
      modifies this, redis
      ensures r.Ok? <==> AcceptsRefresh(old(Current()), token)
      ensures r.Err? ==> r.error == RefreshExpired
      ensures r.Ok? ==> r.value == Reissued(old(Current()), token.user, session)
      ensures Current() == if r.Ok? then CreateNew(old(Current()), token, multiLogin, session) else old(Current())
    {
      var stored := Lookup(SessionKey(Refresh, token.user, token.session));
      if stored != Some(Jwt(token)) {
        return Err(RefreshExpired);
      }
      RemoveKey(Refresh, token.user, token.session);
      RemoveKey(Access, token.user, token.session);
      var access := CreateAccessToken(token.user, multiLogin, session);
      var refresh := CreateRefreshToken(token.user, multiLogin, session);
      r := Ok((access, refresh));
    }

    /** refresh_token of the auth service. */
    method RefreshToken(token: Token, session: string) returns (r: Result<(Token, Token), SessionError>)
      requires Enabled(Current(), RefreshTokens(token, session))
      modifies this, redis
      ensures r.Ok? <==> MayRefresh(old(Current()), token) && AcceptsRefresh(old(Current()), token)
      ensures r.Err? ==> Some(r.error) == Refusal(old(Current()), token)
      ensures r.Ok? ==> r.value == Reissued(old(Current()), token.user, session)
      ensures Current() == Apply(old(Current()), RefreshTokens(token, session))
    {
      if now > token.exp {
        return Err(TokenExpired);
      }
      if token.user !in users {
        return Err(UserMissing);
      }
      if !users[token.user].enabled {
        return Err(UserLocked);
      }
      var tokenKeys := redis.GetPrefix(UserPrefix(Access, token.user) + ":");
      if !users[token.user].multiLogin
        && exists k :: k in tokenKeys && now < redis.data[k].expires && !EndsWith(k, ":" + token.session)
      {
        assert LoggedInElsewhere(Current(), token.user, token.session);
        return Err(LoggedInElsewhereError);
      }
      r := CreateNewToken(token, users[token.user].multiLogin, session);
    }

    method Logout(token: Token, hasCookie: bool)
      modifies redis
      ensures Current() == Apply(old(Current()), Step.Logout(token, hasCookie))
    {
      if now > token.exp {
        return;
      }
      RemoveKey(Access, token.user, token.session);
      RemoveKey(Extra, token.user, token.session);
      if hasCookie {
        RemoveKey(Refresh, token.user, token.session);
      }
    }

    /** jwt_authentication, up to loading the user. */
    method JwtAuthentication(token: Token) returns (r: Result<nat, SessionError>)
      ensures r.Ok? <==> AcceptsAccess(Current(), token)
      ensures r.Ok? ==> r.value == token.user
      ensures r.Err? ==>
        var stored := Get(Current(), SessionKey(Access, token.user, token.session));
        r.error == if now <= token.exp && stored.Some? then TokenInvalid else TokenExpired
    {
      if now > token.exp {
        return Err(TokenExpired);
      }
      var stored := Lookup(SessionKey(Access, token.user, token.session));
      if stored.None? {
        return Err(TokenExpired);
      }
      if stored.value != Jwt(token) {
        return Err(TokenInvalid);
      }
      r := Ok(token.user);
    }

    /** The multi_login branch of update_permission. */
    method UpdateMultiLogin(user: nat, requester: nat, requesterSession: string)
      returns (r: Result<bool, SessionError>)
      requires requester in users
      modifies this, redis
      ensures Current() == Apply(old(Current()), ChangeMultiLogin(user, requester, requesterSession))
      ensures r == if user in old(users) then Ok(!old(users)[requester].multiLogin) else Err(UserMissing)
    {
      if user !in users {
        return Err(UserMissing);
      }
      var newMultiLogin := !users[requester].multiLogin;
      users := users[user := users[user].(multiLogin := newMultiLogin)];
      if !newMultiLogin {
        PurgePrefix(Access, user, {SessionKey(Access, user, requesterSession)});
      }
      r := Ok(newMultiLogin);
    }

    /** The token purge of reset_password and update_password. */
    method PurgeAfterPasswordChange(user: nat) returns (r: Result<(), SessionError>)
      modifies redis
      ensures Current() == Apply(old(Current()), ChangePassword(user))
      ensures r == if user in users then Ok(()) else Err(UserMissing)
    {
      if user !in users {
        return Err(UserMissing);
      }
      PurgePrefix(Access, user, {});
      PurgePrefix(Refresh, user, {});
      r := Ok(());
    }

    method Delete(user: nat) returns (r: Result<(), SessionError>)
      modifies this, redis
      ensures Current() == Apply(old(Current()), DeleteUser(user))
      ensures r == if user in old(users) then Ok(()) else Err(UserMissing)
    {
      if user !in users {
        return Err(UserMissing);
      }
      users := users - {user};
      PurgePrefix(Access, user, {});
      PurgePrefix(Refresh, user, {});
      r := Ok(());
    }
  }

  lemma KeysOfSessionDiffer(user: nat, session: string)
    ensures SessionKey(Access, user, session) != SessionKey(Extra, user, session)
  {
    if SessionKey(Access, user, session) == SessionKey(Extra, user, session) {
      SessionKeyIsInjective(Access, user, session, Extra, user, session);
    }
  }

  lemma AccessSurvivesRefresh(s: State, user: nat, multiLogin: bool, session: string)
    ensures var t := CreateRefresh(s, user, multiLogin, session);
      Get(t, SessionKey(Access, user, session)) == Get(s, SessionKey(Access, user, session))
  {
    PurgeReaches(Refresh, user, Access, user, session);
    if SessionKey(Refresh, user, session) == SessionKey(Access, user, session) {
      SessionKeyIsInjective(Refresh, user, session, Access, user, session);
    }
  }
}
