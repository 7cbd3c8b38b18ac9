/**
 The request handlers and the database operations they are made of, as methods over the
 stored users and tokens. A ghost journal records every commit in the order it is made,
 so each handler is proved to make exactly the commits of its plan, in that order.
*/
module AccountStore {
  import opened Wrappers
  import opened AscendingSets
  import opened Accounts

  lemma {:induction false} ApplyAllAppend(db: Db, a: seq<Commit>, b: seq<Commit>)
    ensures ApplyAll(db, a + b) == ApplyAll(ApplyAll(db, a), b)
  {
    if b == [] {
      assert a + b == a;
    } else {
      ApplyAllAppend(db, a, b[..|b| - 1]);
      assert (a + b)[..|a + b| - 1] == a + b[..|b| - 1];
    }
  }

  lemma ApplyOne(db: Db, c: Commit)
    ensures ApplyAll(db, [c]) == Apply(db, c)
  {
    assert [c][..0] == [];
    assert ApplyAll(db, [c][..0]) == db;
  }

  lemma Associate<T>(a: seq<T>, b: seq<T>, c: seq<T>)
    ensures (a + b) + c == a + (b + c)
  {}

  /** Commits made one list after the other are commits made in one list. */
  lemma CommitsJoin(db: Db, journal: seq<Commit>, a: seq<Commit>, b: seq<Commit>)
    ensures (journal + a) + b == journal + (a + b)
    ensures ApplyAll(ApplyAll(db, a), b) == ApplyAll(db, a + b)
  {
    Associate(journal, a, b);
    ApplyAllAppend(db, a, b);
  }

  class Session {
    var users: map<UserId, User>
    var tokens: map<Digest, EmailToken>
    ghost var journal: seq<Commit>

    ghost function Stored(): Db
      reads this
    {
      Db(users, tokens)
    }

    constructor ()
      ensures Stored() == EMPTY_DB && journal == []
    {
      users, tokens, journal := map[], map[], [];
    }

    /** These commits were made, and nothing else. */
    twostate predicate Committed(commits: seq<Commit>)
      reads this
    {
      journal == old(journal) + commits && Stored() == ApplyAll(old(Stored()), commits)
    }

    // ----- Database operations -----

    method GetUserByEmail(email: string) returns (r: Option<UserId>)
      requires Inv(Stored())
      ensures r == FindUser(Stored(), NormalizeEmail(email))
    {
      var normal := NormalizeEmail(email);
      if id: UserId :| id in users && users[id].email == normal {
        r := Some(id);
      } else {
        r := None;
      }
    }

    method CreateUser(id: UserId, email: string, hash: PasswordHash, name: Option<string>, now: int)
      modifies this
      ensures Committed([AddUser(id, User(NormalizeEmail(email), hash, name, None, now, 0))])
    {
      ghost var commit := AddUser(id, User(NormalizeEmail(email), hash, name, None, now, 0));
      ApplyOne(Stored(), commit);
      users := users[id := User(NormalizeEmail(email), hash, name, None, now, 0)];
      journal := journal + [commit];
    }

    method MarkEmailVerified(id: UserId, now: int)
      requires id in users
      modifies this
      ensures Committed(VerifiedPlan(old(Stored()), id, now))
    {
      if users[id].verifiedAt.None? {
        ApplyOne(Stored(), MarkVerified(id, now));
        users := users[id := users[id].(verifiedAt := Some(now))];
        journal := journal + [MarkVerified(id, now)];
      }
    }

    /** Store the new hash and move on to the next session generation. */
    method SetPassword(id: UserId, hash: PasswordHash, now: int)
      requires id in users
      modifies this
      ensures Committed([ChangePassword(id, hash, now)])
    {
      ApplyOne(Stored(), ChangePassword(id, hash, now));
      var user := users[id];
      user := user.(passwordHash := hash);
      user := user.(changedAt := now);
      user := user.(tokenVersion := user.tokenVersion + 1);
      users := users[id := user];
      journal := journal + [ChangePassword(id, hash, now)];
    }

    method CreateEmailToken(id: UserId, purpose: Purpose, digest: Digest, now: int, ttlMinutes: int)
      modifies this
      ensures Committed([AddToken(digest, EmailToken(id, purpose, now + ttlMinutes * MINUTE, None))])
    {
      var token := EmailToken(id, purpose, now + ttlMinutes * MINUTE, None);
      ApplyOne(Stored(), AddToken(digest, token));
      tokens := tokens[digest := token];
      journal := journal + [AddToken(digest, token)];
    }

    /** Finds a token by its digest; one of another purpose, used or expired counts as absent. */
    method GetUsableEmailToken(purpose: Purpose, digest: Digest, now: int) returns (r: Option<EmailToken>)
      ensures r == if Usable(Stored(), purpose, digest, now) then Some(tokens[digest]) else None
    {
      if digest !in tokens || tokens[digest].purpose != purpose || tokens[digest].usedAt.Some? {
        return None;
      }
      if tokens[digest].expiresAt <= now {
        return None;
      }
      r := Some(tokens[digest]);
    }

    method ConsumeEmailToken(digest: Digest, now: int)
      requires digest in tokens
      modifies this
      ensures Committed([UseTokens({digest}, now)])
    {
      ghost var commit := UseTokens({digest}, now);
      ApplyOne(Stored(), commit);
      ghost var before := Stored();
      tokens := tokens[digest := tokens[digest].(usedAt := Some(now))];
      assert tokens == Apply(before, commit).tokens;
      journal := journal + [commit];
    }

    /** Uses up whatever a user still holds for a purpose. Nothing is committed if that is nothing. */
    method InvalidateEmailTokens(id: UserId, purpose: Purpose, now: int) returns (count: nat)
      modifies this
      ensures Committed(InvalidatePlan(old(Stored()), id, purpose, now))
      ensures count == |Outstanding(old(Stored()), id, purpose)|
    {
      ghost var before := Stored();
      var found := set d | d in tokens && tokens[d].user == id && tokens[d].purpose == purpose && tokens[d].usedAt.None?;
      assert found == Outstanding(before, id, purpose);
      var todo, updated := found, tokens;
      while todo != {}
        invariant Stored() == before && journal == old(journal)
        invariant todo <= found
        invariant updated == map d | d in tokens ::
                    if d in found - todo then tokens[d].(usedAt := Some(now)) else tokens[d]
      {
        var d := Choose(todo);
        updated := updated[d := updated[d].(usedAt := Some(now))];
        todo := todo - {d};
      }
      count := |found|;
      if found != {} {
        ApplyOne(before, UseTokens(found, now));
        tokens := updated;
        assert tokens == Apply(before, UseTokens(found, now)).tokens;
        journal := journal + [UseTokens(found, now)];
      }
    }

    // ----- Handlers -----

    method IssueToken(id: UserId, purpose: Purpose, newToken: string, now: int, ttlMinutes: int)
      modifies this
      ensures Committed(IssuePlan(old(Stored()), id, purpose, newToken, now, ttlMinutes))
    {
      var _ := InvalidateEmailTokens(id, purpose, now);
      CreateEmailToken(id, purpose, Sha256(newToken), now, ttlMinutes);
      CommitsJoin(old(Stored()), old(journal), InvalidatePlan(old(Stored()), id, purpose, now),
                  [AddToken(Sha256(newToken), EmailToken(id, purpose, now + ttlMinutes * MINUTE, None))]);
    }

    /** A served request: its commits were those of the plan, its reply the planned one. */
    twostate predicate Served(cfg: Settings, now: int, req: Request, reply: Reply)
      reads this
    {
      && Committed(Plan(cfg, old(Stored()), now, req))
      && reply == ReplyTo(cfg, old(Stored()), now, req)
    }

    method HandleRegister(cfg: Settings, now: int, email: string, password: string, name: Option<string>,
                          newId: UserId, newToken: string) returns (reply: Reply)
      requires Inv(Stored()) && newId !in users
      modifies this
      ensures Served(cfg, now, Register(email, password, name, newId, newToken), reply)
    {
      var normal := NormalizeEmail(email);
      NormalizeIdempotent(email);
      var taken := GetUserByEmail(normal);
      if taken.Some? {
        return EmailTaken;
      }
      AddAccount(cfg, now, normal, password, name, newId, newToken);
      RegisterServed(cfg, old(Stored()), now, email, password, name, newId, newToken);
      reply := SignedIn(TokenFor(cfg, Db(users, tokens), newId, now), newId);
    }

    /** The new account, and its first verification token. */
    method AddAccount(cfg: Settings, now: int, normal: string, password: string, name: Option<string>,
                      newId: UserId, newToken: string)
      requires NormalizeEmail(normal) == normal
      modifies this
      ensures Committed(AccountPlan(cfg, old(Stored()), now, normal, password, name, newId, newToken))
      ensures newId in users
    {
      ghost var add := AddUser(newId, User(normal, Bcrypt(password), name, None, now, 0));
      CreateUser(newId, normal, Bcrypt(password), name, now);
      ApplyOne(old(Stored()), add);
      ghost var created := Stored();
      IssueToken(newId, VerifyPurpose, newToken, now, cfg.verifyTtlMinutes);
      CommitsJoin(old(Stored()), old(journal), [add],
                  IssuePlan(created, newId, VerifyPurpose, newToken, now, cfg.verifyTtlMinutes));
      IssueKeepsUsers(created, newId, VerifyPurpose, newToken, now, cfg.verifyTtlMinutes);
    }

    method HandleLogin(cfg: Settings, now: int, email: string, password: string) returns (reply: Reply)
      requires Inv(Stored())
      modifies this
      ensures Served(cfg, now, Login(email, password), reply)
    {
      var found := GetUserByEmail(email);
      if found.None? || users[found.value].passwordHash != Bcrypt(password) {
        return BadCredentials;
      }
      reply := SignedIn(TokenFor(cfg, Db(users, tokens), found.value, now), found.value);
    }

    method HandleVerifyEmail(cfg: Settings, now: int, raw: string) returns (reply: Reply)
      requires Inv(Stored())
      modifies this
      ensures Served(cfg, now, VerifyEmail(raw), reply)
    {
      var token := GetUsableEmailToken(VerifyPurpose, Sha256(raw), now);
      if token.None? || token.value.user !in users {
        return InvalidToken;
      }
      ghost var consume := UseTokens({Sha256(raw)}, now);
      ConsumeEmailToken(Sha256(raw), now);
      ApplyOne(old(Stored()), consume);
      MarkEmailVerified(token.value.user, now);
      CommitsJoin(old(Stored()), old(journal), [consume], VerifiedPlan(old(Stored()), token.value.user, now));
      reply := Confirmed(token.value.user);
    }

    method HandleResendVerification(cfg: Settings, now: int, bearer: Bearer, newToken: string) returns (reply: Reply)
      requires Inv(Stored())
      modifies this
      ensures Served(cfg, now, ResendVerification(bearer, newToken), reply)
    {
      var current := CurrentUser(Db(users, tokens), now, bearer);
      if current.None? {
        return NotAuthenticated;
      }
      if users[current.value].verifiedAt.Some? {
        return AlreadyVerified;
      }
      IssueToken(current.value, VerifyPurpose, newToken, now, cfg.verifyTtlMinutes);
      reply := MailSent;
    }

    /** The same acknowledgement whether or not the address has an account. */
    method HandleForgotPassword(cfg: Settings, now: int, email: string, newToken: string) returns (reply: Reply)
      requires Inv(Stored())
      modifies this
      ensures Served(cfg, now, ForgotPassword(email, newToken), reply)
    {
      var found := GetUserByEmail(email);
      ForgotServed(cfg, Stored(), now, email, newToken);
      if found.Some? {
        IssueToken(found.value, ResetPurpose, newToken, now, cfg.resetTtlMinutes);
      }
      reply := GenericAck;
    }

    method HandleResetPassword(cfg: Settings, now: int, raw: string, password: string) returns (reply: Reply)
      requires Inv(Stored())
      modifies this
      ensures Served(cfg, now, ResetPassword(raw, password), reply)
    {
      var token := GetUsableEmailToken(ResetPurpose, Sha256(raw), now);
      if token.None? || token.value.user !in users {
        return InvalidToken;
      }
      var id := token.value.user;
      ConsumeAndRetire(Sha256(raw), id, now);
      ghost var retired := Stored();
      RetireKeepsUsers(old(Stored()), Sha256(raw), id, now);
      ChangeAndMark(id, Bcrypt(password), now);
      CommitsJoin(old(Stored()), old(journal), RetirePlan(old(Stored()), Sha256(raw), id, now),
                  ChangePlan(retired, id, Bcrypt(password), now));
      ResetHalves(old(Stored()), retired, now, Sha256(raw), password);
      ResetPlanned(cfg, old(Stored()), now, raw, password);
      ResetAnswered(cfg, old(Stored()), now, raw, password, ResetPlan(old(Stored()), now, Sha256(raw), password));
      reply := SignedIn(TokenFor(cfg, Db(users, tokens), id, now), id);
    }

    /** The first half of a reset: use the presented token, then every other one. */
    method ConsumeAndRetire(digest: Digest, id: UserId, now: int)
      requires digest in tokens
      modifies this
      ensures Committed(RetirePlan(old(Stored()), digest, id, now))
    {
      ghost var consume := UseTokens({digest}, now);
      ConsumeEmailToken(digest, now);
      ApplyOne(old(Stored()), consume);
      ghost var consumed := Stored();
      var _ := InvalidateEmailTokens(id, ResetPurpose, now);
      CommitsJoin(old(Stored()), old(journal), [consume], InvalidatePlan(consumed, id, ResetPurpose, now));
    }

    /** The second half: the new password, then the verified address. */
    method ChangeAndMark(id: UserId, hash: PasswordHash, now: int)
      requires id in users
      modifies this
      ensures Committed(ChangePlan(old(Stored()), id, hash, now))
      ensures id in users
    {
      ghost var change := ChangePassword(id, hash, now);
      SetPassword(id, hash, now);
      ApplyOne(old(Stored()), change);
      MarkEmailVerified(id, now);
      CommitsJoin(old(Stored()), old(journal), [change], VerifiedPlan(old(Stored()), id, now));
      ApplyVerified(Apply(old(Stored()), change), old(Stored()), id, now);
    }
  }

  /** What serving a registration of a free address comes to. */
  lemma RegisterServed(cfg: Settings, db: Db, now: int, email: string, password: string, name: Option<string>,
                       newId: UserId, newToken: string)
    requires FindUser(db, NormalizeEmail(email)).None?
    ensures var req := Register(email, password, name, newId, newToken);
            var plan := AccountPlan(cfg, db, now, NormalizeEmail(email), password, name, newId, newToken);
            && Plan(cfg, db, now, req) == plan
            && ReplyTo(cfg, db, now, req) == SignIn(cfg, ApplyAll(db, plan), newId, now)
  {}

  lemma ForgotServed(cfg: Settings, db: Db, now: int, email: string, newToken: string)
    ensures var found := FindUser(db, NormalizeEmail(email));
            var req := ForgotPassword(email, newToken);
            && Plan(cfg, db, now, req)
               == (if found.None? then [] else IssuePlan(db, found.value, ResetPurpose, newToken, now, cfg.resetTtlMinutes))
            && ReplyTo(cfg, db, now, req) == GenericAck
  {}

  /** What serving a reset with a usable token comes to. */
  lemma ResetPlanned(cfg: Settings, db: Db, now: int, raw: string, password: string)
    requires Usable(db, ResetPurpose, Sha256(raw), now) && db.tokens[Sha256(raw)].user in db.users
    ensures Plan(cfg, db, now, ResetPassword(raw, password)) == ResetPlan(db, now, Sha256(raw), password) != []
  {}

  lemma ResetAnswered(cfg: Settings, db: Db, now: int, raw: string, password: string, plan: seq<Commit>)
    requires Sha256(raw) in db.tokens && plan != []
    ensures Answer(cfg, db, now, ResetPassword(raw, password), plan)
         == SignIn(cfg, ApplyAll(db, plan), db.tokens[Sha256(raw)].user, now)
  {}

  /** The second half may be planned from the state that the first half leaves. */
  lemma ResetHalves(db: Db, retired: Db, now: int, digest: Digest, password: string)
    requires digest in db.tokens && retired.users == db.users
    ensures var id := db.tokens[digest].user;
            ResetPlan(db, now, digest, password)
            == RetirePlan(db, digest, id, now) + ChangePlan(retired, id, Bcrypt(password), now)
  {}

  lemma RetireKeepsUsers(db: Db, digest: Digest, id: UserId, now: int)
    ensures ApplyAll(db, RetirePlan(db, digest, id, now)).users == db.users
  {
    var consume := UseTokens({digest}, now);
    ApplyOne(db, consume);
    ApplyAllAppend(db, [consume], InvalidatePlan(Apply(db, consume), id, ResetPurpose, now));
    InvalidateKeepsUsers(Apply(db, consume), id, ResetPurpose, now);
  }

  lemma ApplyVerified(state: Db, db: Db, id: UserId, now: int)
    requires id in state.users
    ensures id in ApplyAll(state, VerifiedPlan(db, id, now)).users
  {
    ApplyOne(state, MarkVerified(id, now));
  }

  lemma InvalidateKeepsUsers(db: Db, id: UserId, purpose: Purpose, now: int)
    ensures ApplyAll(db, InvalidatePlan(db, id, purpose, now)).users == db.users
  {
    ApplyOne(db, UseTokens(Outstanding(db, id, purpose), now));
  }

  lemma IssueKeepsUsers(db: Db, id: UserId, purpose: Purpose, newToken: string, now: int, ttlMinutes: int)
    ensures ApplyAll(db, IssuePlan(db, id, purpose, newToken, now, ttlMinutes)).users == db.users
  {
    var token := AddToken(Sha256(newToken), EmailToken(id, purpose, now + ttlMinutes * MINUTE, None));
    InvalidateKeepsUsers(db, id, purpose, now);
    ApplyAllAppend(db, InvalidatePlan(db, id, purpose, now), [token]);
    ApplyOne(ApplyAll(db, InvalidatePlan(db, id, purpose, now)), token);
  }
}
