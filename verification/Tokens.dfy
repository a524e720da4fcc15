/** Rotating refresh tokens, password changes and resets, and the counting properties of their runs. */
module Tokens {
  import opened Prelude
  import opened PyText

  type UserId = Str

  /** SHA-256 of a raw token, the only form stored. */
  type TokenHash = Str

  datatype User = User(isActive: bool, hashedPassword: Str)

  datatype RefreshToken = RefreshToken(user: UserId, expiresAt: int, revokedAt: Option<int>)

  datatype ResetToken = ResetToken(user: UserId, expiresAt: int, usedAt: Option<int>)

  datatype Db = Db(users: map<UserId, User>, tokens: map<TokenHash, RefreshToken>, resets: map<TokenHash, ResetToken>)

  /** Settings and the password scheme: how long tokens live, and bcrypt's check and hash. */
  datatype Env = Env(refreshLifetime: int, resetLifetime: int, verify: (Str, Str) -> bool, hash: Str -> Str)

  /** `authenticate_user`, for the user found by e-mail. */
  predicate Authenticates(env: Env, db: Db, user: UserId, password: Str) {
    user in db.users && db.users[user].isActive && env.verify(password, db.users[user].hashedPassword)
  }

  /** `issue_refresh_token`; the unique constraint refuses a hash that already exists. */
  function Issue(env: Env, db: Db, user: UserId, h: TokenHash, now: int): Db {
    if h in db.tokens then db else db.(tokens := db.tokens[h := RefreshToken(user, now + env.refreshLifetime, None)])
  }

  /** The presented token is accepted. */
  predicate Redeemable(db: Db, h: TokenHash, now: int) {
    h in db.tokens && db.tokens[h].revokedAt.None? && db.tokens[h].expiresAt >= now
  }

  /** `redeem_refresh_token` yields a user. */
  predicate Redeems(db: Db, h: TokenHash, now: int) {
    Redeemable(db, h, now) && db.tokens[h].user in db.users && db.users[db.tokens[h].user].isActive
  }

  function Revoked(t: RefreshToken, now: int): RefreshToken {
    t.(revokedAt := Some(now))
  }

  /** The database after `redeem_refresh_token`: an accepted token is revoked even when its user is not. */
  function Redeem(db: Db, h: TokenHash, now: int): Db {
    if Redeemable(db, h, now) then db.(tokens := db.tokens[h := Revoked(db.tokens[h], now)]) else db
  }

  function RevokeAll(tokens: map<TokenHash, RefreshToken>, user: UserId, now: int): map<TokenHash, RefreshToken> {
    map h | h in tokens :: if tokens[h].user == user && tokens[h].revokedAt.None? then Revoked(tokens[h], now) else tokens[h]
  }

  datatype Command =
    | Login(user: UserId, password: Str, issued: TokenHash, now: int)
    | Refresh(presented: TokenHash, issued: TokenHash, now: int)
    | Logout(presented: TokenHash, now: int)
    | ChangePassword(user: UserId, current: Str, next: Str, now: int)
    | ForgotPassword(user: UserId, issued: TokenHash, now: int)
    | ResetPassword(presented: TokenHash, next: Str, now: int)
    | SetActive(user: UserId, isActive: bool)

  predicate Changes(env: Env, db: Db, c: Command) {
    c.ChangePassword? && c.user in db.users && env.verify(c.current, db.users[c.user].hashedPassword)
  }

  predicate Resets(db: Db, c: Command) {
    c.ResetPassword? && c.presented in db.resets && db.resets[c.presented].usedAt.None? &&
    db.resets[c.presented].expiresAt >= c.now &&
    db.resets[c.presented].user in db.users && db.users[db.resets[c.presented].user].isActive
  }

  /** One request, served to the end before the next. */
  function Next(env: Env, db: Db, c: Command): Db {
    match c
    case Login(user, password, issued, now) =>
      if Authenticates(env, db, user, password) then Issue(env, db, user, issued, now) else db
    case Refresh(presented, issued, now) =>
      var after := Redeem(db, presented, now);
      if Redeems(db, presented, now) then Issue(env, after, db.tokens[presented].user, issued, now) else after
    case Logout(presented, now) =>
      if presented in db.tokens && db.tokens[presented].revokedAt.None?
      then db.(tokens := db.tokens[presented := Revoked(db.tokens[presented], now)]) else db
    case ChangePassword(user, current, next, now) =>
      if Changes(env, db, c)
      then Db(db.users[user := db.users[user].(hashedPassword := env.hash(next))], RevokeAll(db.tokens, user, now), db.resets)
      else db
    case ForgotPassword(user, issued, now) =>
      if user in db.users && db.users[user].isActive && issued !in db.resets
      then db.(resets := db.resets[issued := ResetToken(user, now + env.resetLifetime, None)]) else db
    case ResetPassword(presented, next, now) =>
      if Resets(db, c)
      then
        var user := db.resets[presented].user;
        Db(db.users[user := db.users[user].(hashedPassword := env.hash(next))], RevokeAll(db.tokens, user, now),
           db.resets[presented := db.resets[presented].(usedAt := Some(now))])
      else db
    case SetActive(user, isActive) =>
      if user in db.users then db.(users := db.users[user := db.users[user].(isActive := isActive)]) else db
  }

  function Run(env: Env, db: Db, cs: seq<Command>): Db
    decreases |cs|
  {
    if cs == [] then db else Run(env, Next(env, db, cs[0]), cs[1..])
  }

  // ---------------------------------------------------------------- a revoked token stays revoked

  ghost predicate Dead(db: Db, h: TokenHash) {
    h in db.tokens && db.tokens[h].revokedAt.Some?
  }

  lemma NextKeepsDead(env: Env, db: Db, c: Command, h: TokenHash)
    requires Dead(db, h)
    ensures Dead(Next(env, db, c), h)
  {}

  /** How many requests of the run redeem this token successfully. */
  ghost function Redemptions(env: Env, db: Db, cs: seq<Command>, h: TokenHash): nat
    decreases |cs|
  {
    if cs == [] then 0
    else
      (if cs[0].Refresh? && cs[0].presented == h && Redeems(db, h, cs[0].now) then 1 else 0) +
      Redemptions(env, Next(env, db, cs[0]), cs[1..], h)
  }

  lemma {:induction false} DeadNeverRedeems(env: Env, db: Db, cs: seq<Command>, h: TokenHash)
    requires Dead(db, h)
    ensures Redemptions(env, db, cs, h) == 0 && Dead(Run(env, db, cs), h)
    decreases |cs|
  {
    if cs != [] {
      NextKeepsDead(env, db, cs[0], h);
      DeadNeverRedeems(env, Next(env, db, cs[0]), cs[1..], h);
    }
  }

  lemma RedeemKills(env: Env, db: Db, c: Command)
    requires c.Refresh? && Redeems(db, c.presented, c.now)
    ensures Dead(Next(env, db, c), c.presented)
  {}

  /** Over every run, from any state, each refresh token is redeemed at most once. */
  lemma {:induction false} RedeemedAtMostOnce(env: Env, db: Db, cs: seq<Command>, h: TokenHash)
    ensures Redemptions(env, db, cs, h) <= 1
    decreases |cs|
  {
    hide Next;
    if cs != [] {
      if cs[0].Refresh? && cs[0].presented == h && Redeems(db, h, cs[0].now) {
        RedeemKills(env, db, cs[0]);
        DeadNeverRedeems(env, Next(env, db, cs[0]), cs[1..], h);
      } else {
        RedeemedAtMostOnce(env, Next(env, db, cs[0]), cs[1..], h);
      }
    }
  }

  /** The user whose password a command changed, if it did. */
  function PasswordSet(env: Env, db: Db, c: Command): Option<UserId> {
    if Changes(env, db, c) then Some(c.user)
    else if Resets(db, c) then Some(db.resets[c.presented].user)
    else None
  }

  /** After a password change or reset, no token issued to the user before it is ever redeemed again. */
  lemma OldTokensDie(env: Env, db: Db, c: Command, cs: seq<Command>, h: TokenHash)
    requires h in db.tokens && PasswordSet(env, db, c) == Some(db.tokens[h].user)
    ensures Redemptions(env, Next(env, db, c), cs, h) == 0
    ensures forall now :: !Redeemable(Run(env, Next(env, db, c), cs), h, now)
  {
    assert Dead(Next(env, db, c), h);
    DeadNeverRedeems(env, Next(env, db, c), cs, h);
  }

  // ---------------------------------------------------------------- how many sessions a user can hold

  ghost function Unrevoked(db: Db, user: UserId): set<TokenHash> {
    set h | h in db.tokens && db.tokens[h].user == user && db.tokens[h].revokedAt.None?
  }

  predicate LogsIn(env: Env, db: Db, c: Command, user: UserId) {
    c.Login? && c.user == user && Authenticates(env, db, user, c.password)
  }

  /** The user's logins since the last password change or reset, counted from `acc`. */
  ghost function LoginsSince(env: Env, db: Db, cs: seq<Command>, user: UserId, acc: nat): nat
    decreases |cs|
  {
    if cs == [] then acc
    else
      var acc' := if PasswordSet(env, db, cs[0]) == Some(user) then 0 else if LogsIn(env, db, cs[0], user) then acc + 1 else acc;
      LoginsSince(env, Next(env, db, cs[0]), cs[1..], user, acc')
  }

  lemma SubsetSize(a: set<TokenHash>, b: set<TokenHash>)
    requires forall h :: h in a ==> h in b
    ensures |a| <= |b|
  {
    assert b == a + (b - a);
  }

  /** One request adds at most a login's worth of tokens, and a new password leaves none. */
  lemma NextUnrevoked(env: Env, db: Db, c: Command, user: UserId)
    ensures PasswordSet(env, db, c) == Some(user) ==> Unrevoked(Next(env, db, c), user) == {}
    ensures LogsIn(env, db, c, user) ==> |Unrevoked(Next(env, db, c), user)| <= |Unrevoked(db, user)| + 1
    ensures !LogsIn(env, db, c, user) ==> |Unrevoked(Next(env, db, c), user)| <= |Unrevoked(db, user)|
  {
    hide Redeem;
    hide Redeems;
    var before, after := Unrevoked(db, user), Unrevoked(Next(env, db, c), user);
    match c
    case Login(_, _, issued, _) => SubsetSize(after, if LogsIn(env, db, c, user) then before + {issued} else before);
    case Refresh(presented, issued, now) => RefreshUnrevoked(env, db, c, user);
    case _ => SubsetSize(after, before);
  }

  lemma RefreshUnrevoked(env: Env, db: Db, c: Command, user: UserId)
    requires c.Refresh?
    ensures |Unrevoked(Next(env, db, c), user)| <= |Unrevoked(db, user)|
  {
    var before, after := Unrevoked(db, user), Unrevoked(Next(env, db, c), user);
    if Redeems(db, c.presented, c.now) && db.tokens[c.presented].user == user {
      SubsetSize(after, (before - {c.presented}) + {c.issued});
      assert c.presented in before;
      assert |before - {c.presented}| == |before| - 1;
    } else {
      SubsetSize(after, before);
    }
  }

  /** A user never holds more unrevoked tokens than logins since the last password change or reset. */
  lemma {:induction false} SessionsBounded(env: Env, db: Db, cs: seq<Command>, user: UserId, acc: nat)
    requires |Unrevoked(db, user)| <= acc
    ensures |Unrevoked(Run(env, db, cs), user)| <= LoginsSince(env, db, cs, user, acc)
    decreases |cs|
  {
    hide Next;
    hide PasswordSet;
    hide LogsIn;
    if cs != [] {
      NextUnrevoked(env, db, cs[0], user);
      var acc' := if PasswordSet(env, db, cs[0]) == Some(user) then 0 else if LogsIn(env, db, cs[0], user) then acc + 1 else acc;
      SessionsBounded(env, Next(env, db, cs[0]), cs[1..], user, acc');
    }
  }

  /** `list_active_sessions`: tokens neither revoked nor expired. */
  ghost function ActiveSessions(db: Db, user: UserId, now: int): set<TokenHash> {
    set h | h in db.tokens && db.tokens[h].user == user && db.tokens[h].revokedAt.None? && db.tokens[h].expiresAt > now
  }

  /** From an empty token table, the sessions listed never outnumber the logins since the last password change or reset. */
  lemma ListedSessionsBounded(env: Env, db: Db, cs: seq<Command>, user: UserId, now: int)
    requires db.tokens == map[]
    ensures |ActiveSessions(Run(env, db, cs), user, now)| <= LoginsSince(env, db, cs, user, 0)
    ensures forall h :: h in ActiveSessions(Run(env, db, cs), user, now) ==> Redeemable(Run(env, db, cs), h, now)
  {
    assert Unrevoked(db, user) == {};
    SessionsBounded(env, db, cs, user, 0);
    SubsetSize(ActiveSessions(Run(env, db, cs), user, now), Unrevoked(Run(env, db, cs), user));
  }

  // ---------------------------------------------------------------- the service

  /** The authentication service over mutable tables. */
  class Service {
    var users: map<UserId, User>
    var tokens: map<TokenHash, RefreshToken>
    var resets: map<TokenHash, ResetToken>

    function View(): Db
      reads this
    {
      Db(users, tokens, resets)
    }

    constructor (db: Db)
      ensures View() == db
    {
      users, tokens, resets := db.users, db.tokens, db.resets;
    }

    /** `issue_refresh_token`, for a token whose hash is new. */
    method IssueRefreshToken(env: Env, user: UserId, h: TokenHash, now: int) returns (ok: bool)
      modifies this`tokens
      ensures View() == Issue(env, old(View()), user, h, now) && (ok <==> h !in old(tokens))
    {
      ok := h !in tokens;
      if ok {
        tokens := tokens[h := RefreshToken(user, now + env.refreshLifetime, None)];
      }
    }

    /** `revoke_refresh_token`: unknown and already revoked tokens are passed over. */
    method RevokeRefreshToken(env: Env, h: TokenHash, now: int)
      modifies this`tokens
      ensures View() == Next(env, old(View()), Logout(h, now))
    {
      if h in tokens && tokens[h].revokedAt.None? {
        tokens := tokens[h := tokens[h].(revokedAt := Some(now))];
      }
    }

    /** The refresh endpoint: redeem the presented token and, for an active user, issue its replacement. */
    method RefreshSession(env: Env, presented: TokenHash, issued: TokenHash, now: int) returns (user: Option<UserId>)
      modifies this`tokens
      ensures View() == Next(env, old(View()), Refresh(presented, issued, now))
      ensures user.Some? <==> Redeems(old(View()), presented, now)
    {
      user := RedeemRefreshToken(presented, now);
      if user.Some? {
        var _ := IssueRefreshToken(env, user.value, issued, now);
      }
    }

    method RedeemRefreshToken(h: TokenHash, now: int) returns (user: Option<UserId>)
      modifies this`tokens
      ensures View() == Redeem(old(View()), h, now)
      ensures user == if Redeems(old(View()), h, now) then Some(old(tokens)[h].user) else None
    {
      if h !in tokens || tokens[h].revokedAt.Some? { return None; }
      if tokens[h].expiresAt < now { return None; }
      var owner := tokens[h].user;
      tokens := tokens[h := tokens[h].(revokedAt := Some(now))];
      if owner !in users || !users[owner].isActive { return None; }
      user := Some(owner);
    }

    /** `_revoke_all_user_refresh_tokens`. */
    method RevokeAllUserTokens(user: UserId, now: int)
      modifies this`tokens
      ensures tokens == RevokeAll(old(tokens), user, now)
    {
      var todo := set h | h in tokens && tokens[h].user == user && tokens[h].revokedAt.None?;
      while todo != {}
        invariant forall h :: h in tokens <==> h in old(tokens)
        invariant forall h :: h in todo ==> h in old(tokens) && old(tokens)[h].user == user && old(tokens)[h].revokedAt.None?
        invariant forall h :: h in tokens ==>
                    tokens[h] == if h !in todo && old(tokens)[h].user == user && old(tokens)[h].revokedAt.None?
                                 then Revoked(old(tokens)[h], now) else old(tokens)[h]
        decreases todo
      {
        var h :| h in todo;
        tokens := tokens[h := tokens[h].(revokedAt := Some(now))];
        todo := todo - {h};
      }
    }

    /** `reset_password`: consume the reset token, set the password, end every session. */
    method ResetPassword(env: Env, h: TokenHash, next: Str, now: int) returns (ok: bool)
      modifies this
      ensures View() == Next(env, old(View()), Command.ResetPassword(h, next, now))
      ensures ok <==> Resets(old(View()), Command.ResetPassword(h, next, now))
    {
      if h !in resets || resets[h].usedAt.Some? || resets[h].expiresAt < now { return false; }
      var owner := resets[h].user;
      if owner !in users || !users[owner].isActive { return false; }
      users := users[owner := users[owner].(hashedPassword := env.hash(next))];
      resets := resets[h := resets[h].(usedAt := Some(now))];
      RevokeAllUserTokens(owner, now);
      ok := true;
    }

    /** `change_password`, or the 400 response. */
    method ChangePassword(env: Env, user: UserId, current: Str, next: Str, now: int) returns (error: Option<Error>)
      requires user in users
      modifies this
      ensures View() == Next(env, old(View()), Command.ChangePassword(user, current, next, now))
      ensures error == if Changes(env, old(View()), Command.ChangePassword(user, current, next, now)) then None else Some(BadRequest)
    {
      if !env.verify(current, users[user].hashedPassword) { return Some(BadRequest); }
      users := users[user := users[user].(hashedPassword := env.hash(next))];
      RevokeAllUserTokens(user, now);
      error := None;
    }
  }
}
