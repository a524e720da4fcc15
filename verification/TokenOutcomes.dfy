/** Exactly when tokens come to be, live and die, and what a password change or reset leaves behind. */
module TokenOutcomes {
  import opened Prelude
  import opened PyText
  import opened Tokens

  // ---------------------------------------------------------------- refresh tokens

  /** The request revokes this token: it redeems it, logs it out, or sets its owner's password. */
  ghost predicate Kills(env: Env, db: Db, c: Command, h: TokenHash)
    requires h in db.tokens
  {
    (c.Refresh? && c.presented == h && Redeemable(db, h, c.now)) || (c.Logout? && c.presented == h) ||
    PasswordSet(env, db, c) == Some(db.tokens[h].user)
  }

  /** A stored token keeps its owner and expiry, and stays unrevoked exactly as long as no request kills it. */
  lemma NextRevokes(env: Env, db: Db, c: Command, h: TokenHash)
    requires h in db.tokens
    ensures var after := Next(env, db, c);
            h in after.tokens && after.tokens[h].user == db.tokens[h].user && after.tokens[h].expiresAt == db.tokens[h].expiresAt &&
            (after.tokens[h].revokedAt.None? <==> db.tokens[h].revokedAt.None? && !Kills(env, db, c, h)) &&
            (db.tokens[h].revokedAt.Some? ==> after.tokens[h].revokedAt == db.tokens[h].revokedAt)
  {}

  ghost predicate EverKilled(env: Env, db: Db, cs: seq<Command>, h: TokenHash)
    requires h in db.tokens
    decreases |cs|
  {
    cs != [] && (Kills(env, db, cs[0], h) || (NextRevokes(env, db, cs[0], h); EverKilled(env, Next(env, db, cs[0]), cs[1..], h)))
  }

  /** Over every run, a token is accepted exactly until it expires, unless it was revoked before or killed on the way. */
  lemma {:induction false} TokenLives(env: Env, db: Db, cs: seq<Command>, h: TokenHash, at: int)
    requires h in db.tokens
    ensures Redeemable(Run(env, db, cs), h, at) <==>
              db.tokens[h].revokedAt.None? && at <= db.tokens[h].expiresAt && !EverKilled(env, db, cs, h)
    decreases |cs|
  {
    hide Next;
    hide Kills;
    if cs != [] {
      NextRevokes(env, db, cs[0], h);
      TokenLives(env, Next(env, db, cs[0]), cs[1..], h, at);
    }
  }

  /** The owner of the token a request issues: a login with the right password, or an accepted refresh. */
  ghost function IssuedFor(env: Env, db: Db, c: Command, h: TokenHash): Option<UserId> {
    match c
    case Login(user, password, issued, _) => if issued == h && Authenticates(env, db, user, password) then Some(user) else None
    case Refresh(presented, issued, now) =>
      if issued == h && Redeems(db, presented, now) then Some(db.tokens[presented].user) else None
    case _ => None
  }

  /** New tokens come from logins and refreshes only, belong to the right user and live for the configured time. */
  lemma NextIssues(env: Env, db: Db, c: Command, h: TokenHash)
    requires h !in db.tokens
    ensures var after, owner := Next(env, db, c), IssuedFor(env, db, c, h);
            (h in after.tokens <==> owner.Some?) &&
            (owner.Some? ==> after.tokens[h] == RefreshToken(owner.value, c.now + env.refreshLifetime, None))
  {}

  /** The token an accepted refresh hands out serves the same user, and the one presented serves nobody. */
  lemma RefreshRotates(env: Env, db: Db, presented: TokenHash, issued: TokenHash, now: int, later: int)
    requires Redeems(db, presented, now) && issued !in db.tokens
    ensures var after := Next(env, db, Refresh(presented, issued, now));
            !Redeemable(after, presented, later) && issued in after.tokens && after.tokens[issued].user == db.tokens[presented].user &&
            (Redeems(after, issued, later) <==> later <= now + env.refreshLifetime)
  {}

  // ---------------------------------------------------------------- passwords

  /** A password is changed exactly with the current one, and a refused change leaves everything as it was. */
  lemma ChangeNeedsCurrent(env: Env, db: Db, user: UserId, current: Str, next: Str, now: int)
    ensures PasswordSet(env, db, ChangePassword(user, current, next, now)) == Some(user) <==>
              user in db.users && env.verify(current, db.users[user].hashedPassword)
    ensures PasswordSet(env, db, ChangePassword(user, current, next, now)) != Some(user) ==>
              Next(env, db, ChangePassword(user, current, next, now)) == db
  {}

  /** A password change or reset stores the new hash for its user, and touches no other user. */
  lemma PasswordStored(env: Env, db: Db, c: Command, user: UserId)
    requires PasswordSet(env, db, c) == Some(user)
    ensures var after := Next(env, db, c);
            user in db.users && after.users == db.users[user := User(db.users[user].isActive, env.hash(c.next))]
  {}

  /** Whoever has the new password, and nobody else, can log in afterwards, while the user is active. */
  lemma LoginAfterChange(env: Env, db: Db, c: Command, user: UserId, password: Str)
    requires PasswordSet(env, db, c) == Some(user)
    ensures Authenticates(env, Next(env, db, c), user, password) <==> db.users[user].isActive && env.verify(password, env.hash(c.next))
  {
    PasswordStored(env, db, c, user);
  }

  ghost predicate NeverSets(env: Env, db: Db, cs: seq<Command>, user: UserId)
    decreases |cs|
  {
    cs != [] ==> PasswordSet(env, db, cs[0]) != Some(user) && NeverSets(env, Next(env, db, cs[0]), cs[1..], user)
  }

  /** The password stays what it is over every run that does not set it. */
  lemma {:induction false} PasswordLasts(env: Env, db: Db, cs: seq<Command>, user: UserId)
    requires user in db.users && NeverSets(env, db, cs, user)
    ensures user in Run(env, db, cs).users && Run(env, db, cs).users[user].hashedPassword == db.users[user].hashedPassword
    decreases |cs|
  {
    if cs != [] {
      assert user in Next(env, db, cs[0]).users && Next(env, db, cs[0]).users[user].hashedPassword == db.users[user].hashedPassword;
      hide Next;
      PasswordLasts(env, Next(env, db, cs[0]), cs[1..], user);
    }
  }

  // ---------------------------------------------------------------- reset tokens

  ghost predicate Used(db: Db, h: TokenHash) {
    h in db.resets && db.resets[h].usedAt.Some?
  }

  /** A reset token is consumed exactly by the reset it performs, at that time, and otherwise stays as it was issued. */
  lemma NextConsumes(env: Env, db: Db, c: Command, h: TokenHash)
    requires h in db.resets
    ensures var after := Next(env, db, c);
            h in after.resets &&
            after.resets[h] == if Resets(db, c) && c.presented == h then db.resets[h].(usedAt := Some(c.now)) else db.resets[h]
  {}

  /** New reset tokens are issued to active users on request, for the configured time. */
  lemma NextOffers(env: Env, db: Db, c: Command, h: TokenHash)
    requires h !in db.resets
    ensures var after := Next(env, db, c);
            (h in after.resets <==> c.ForgotPassword? && c.issued == h && c.user in db.users && db.users[c.user].isActive) &&
            (h in after.resets ==> after.resets[h] == ResetToken(c.user, c.now + env.resetLifetime, None))
  {}

  /** A reset token just issued works exactly until it expires; one already used never does. */
  lemma ResetWindow(env: Env, db: Db, user: UserId, issued: TokenHash, now: int, next: Str, later: int)
    requires user in db.users && db.users[user].isActive && issued !in db.resets
    ensures var after, reset := Next(env, db, ForgotPassword(user, issued, now)), Command.ResetPassword(issued, next, later);
            (PasswordSet(env, after, reset) == Some(user) <==> later <= now + env.resetLifetime) &&
            PasswordSet(env, Next(env, after, reset), reset) == None
  {}

  /** How many requests of the run set a password with this reset token. */
  ghost function Resettings(env: Env, db: Db, cs: seq<Command>, h: TokenHash): nat
    decreases |cs|
  {
    if cs == [] then 0
    else (if Resets(db, cs[0]) && cs[0].presented == h then 1 else 0) + Resettings(env, Next(env, db, cs[0]), cs[1..], h)
  }

  lemma {:induction false} UsedNeverResets(env: Env, db: Db, cs: seq<Command>, h: TokenHash)
    requires Used(db, h)
    ensures Resettings(env, db, cs, h) == 0 && Used(Run(env, db, cs), h)
    decreases |cs|
  {
    if cs != [] {
      NextConsumes(env, db, cs[0], h);
      hide Next;
      UsedNeverResets(env, Next(env, db, cs[0]), cs[1..], h);
    }
  }

  /** Over every run, from any state, each reset token sets a password at most once. */
  lemma {:induction false} ResetAtMostOnce(env: Env, db: Db, cs: seq<Command>, h: TokenHash)
    ensures Resettings(env, db, cs, h) <= 1
    decreases |cs|
  {
    if cs != [] {
      if Resets(db, cs[0]) && cs[0].presented == h {
        NextConsumes(env, db, cs[0], h);
        UsedNeverResets(env, Next(env, db, cs[0]), cs[1..], h);
      } else {
        ResetAtMostOnce(env, Next(env, db, cs[0]), cs[1..], h);
      }
    }
  }
}
