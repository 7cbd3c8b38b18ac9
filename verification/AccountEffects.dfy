/**
 What each request does, in one piece: the answer and the whole state that a request leaves
 when it runs to its end, in terms of the state it meets and of nothing else.
*/
module AccountEffects {
  import opened Wrappers
  import opened Accounts
  import opened AccountStore
  import opened AccountLaws

  // ----- Addresses -----

  /** No whitespace at either end. */
  predicate Trimmed(s: string) {
    s == [] || (!IsSpace(s[0]) && !IsSpace(s[|s| - 1]))
  }

  predicate Blank(s: string) {
    forall i :: 0 <= i < |s| ==> IsSpace(s[i])
  }

  lemma SpacesAre(c: char)
    ensures IsSpace(c) <==>
      c in {' ', '\t', '\n', '\U{000B}', '\U{000C}', '\r', '\U{001C}', '\U{001D}', '\U{001E}', '\U{001F}'}
  {}

  lemma LowerIs(s: string, i: nat)
    requires i < |s|
    ensures |Lower(s)| == |s|
    ensures Lower(s)[i] as int - s[i] as int == if 'A' <= s[i] <= 'Z' then 'a' as int - 'A' as int else 0
  {}

  lemma {:induction false} StripLeftBlank(pre: string, s: string)
    requires Blank(pre) && (s == [] || !IsSpace(s[0]))
    ensures StripLeft(pre + s) == s
  {
    if pre == [] {
      assert pre + s == s;
    } else {
      StripLeftBlank(pre[1..], s);
      assert (pre + s)[0] == pre[0] && (pre + s)[1..] == pre[1..] + s;
    }
  }

  lemma {:induction false} StripRightBlank(s: string, post: string)
    requires Blank(post) && (s == [] || !IsSpace(s[|s| - 1]))
    ensures StripRight(s + post) == s
  {
    if post == [] {
      assert s + post == s;
    } else {
      var front := post[..|post| - 1];
      StripRightBlank(s, front);
      assert (s + post)[|s + post| - 1] == post[|post| - 1] && (s + post)[..|s + post| - 1] == s + front;
    }
  }

  lemma {:induction false} StripLeftOfBlank(s: string)
    requires Blank(s)
    ensures StripLeft(s) == []
  {
    if s != [] { StripLeftOfBlank(s[1..]); }
  }

  /** Whatever blank text surrounds an address, its normal form is the address in lower case. */
  lemma NormalFormOf(pre: string, core: string, post: string)
    requires Blank(pre) && Trimmed(core) && Blank(post)
    ensures NormalizeEmail(pre + core + post) == Lower(core)
  {
    if core == [] {
      assert pre + core + post == pre + post;
      StripLeftOfBlank(pre + post);
    } else {
      assert pre + core + post == pre + (core + post);
      StripLeftBlank(pre, core + post);
      StripRightBlank(core, post);
    }
  }

  // ----- Who a request acts for -----

  /** Accepted exactly with a signed token for an existing user, of the user's own generation,
      not issued in the future and not expired; a token without a generation is refused. */
  lemma CurrentUserIff(db: Db, now: int, bearer: Bearer, id: UserId)
    ensures CurrentUser(db, now, bearer) == Some(id)
       <==> && bearer.Signed? && bearer.jwt.sub == UserSubject(id) && id in db.users
            && bearer.jwt.ver == Some(db.users[id].tokenVersion)
            && (bearer.jwt.iat.Some? ==> bearer.jwt.iat.value * 1_000_000 <= now)
            && now < bearer.jwt.exp * 1_000_000
  {}

  lemma FoundIff(db: Db, normal: string, id: UserId)
    requires Inv(db)
    ensures FindUser(db, normal) == Some(id) <==> id in db.users && db.users[id].email == normal
  {}

  // ----- Signing in -----

  /** Exactly the right password signs in, as the user of the address; anything else is refused
      alike. Nothing is committed. */
  lemma LoginExact(cfg: Settings, db: Db, now: int, email: string, attempt: string, id: UserId)
    requires Inv(db)
    ensures var reply := ReplyTo(cfg, db, now, Login(email, attempt));
            && Plan(cfg, db, now, Login(email, attempt)) == []
            && (reply.SignedIn? && reply.user == id
                <==> && id in db.users && db.users[id].email == NormalizeEmail(email)
                     && db.users[id].passwordHash == Bcrypt(attempt))
            && (reply.SignedIn? ==> reply.user in db.users && reply.jwt == TokenFor(cfg, db, reply.user, now))
            && (!reply.SignedIn? ==> reply == BadCredentials)
  {
    FoundIff(db, NormalizeEmail(email), id);
  }

  // ----- Issuing tokens -----

  /** These tokens, with every unused one of the user and purpose used up now. */
  function Retired(tokens: map<Digest, EmailToken>, id: UserId, purpose: Purpose, now: int): map<Digest, EmailToken> {
    map d | d in tokens ::
      if tokens[d].user == id && tokens[d].purpose == purpose && tokens[d].usedAt.None?
      then tokens[d].(usedAt := Some(now)) else tokens[d]
  }

  lemma InvalidateExact(db: Db, id: UserId, purpose: Purpose, now: int)
    ensures ApplyAll(db, InvalidatePlan(db, id, purpose, now)) == db.(tokens := Retired(db.tokens, id, purpose, now))
  {
    var all := Outstanding(db, id, purpose);
    if all == {} {
      forall d | d in db.tokens
        ensures !(db.tokens[d].user == id && db.tokens[d].purpose == purpose && db.tokens[d].usedAt.None?)
      {
        assert d !in all;
      }
      assert Retired(db.tokens, id, purpose, now) == db.tokens;
    } else {
      ApplyOne(db, UseTokens(all, now));
      assert Apply(db, UseTokens(all, now)).tokens == Retired(db.tokens, id, purpose, now);
    }
  }

  /** The new token, unused, as the only live one of its user and purpose. */
  function AfterIssue(db: Db, id: UserId, purpose: Purpose, newToken: string, now: int, expires: int): Db {
    db.(tokens := Retired(db.tokens, id, purpose, now)[Sha256(newToken) := EmailToken(id, purpose, expires, None)])
  }

  lemma IssueExact(db: Db, id: UserId, purpose: Purpose, newToken: string, now: int, ttlMinutes: int, expires: int)
    requires expires == now + ttlMinutes * MINUTE
    ensures ApplyAll(db, IssuePlan(db, id, purpose, newToken, now, ttlMinutes))
         == AfterIssue(db, id, purpose, newToken, now, expires)
  {
    var retire, token := InvalidatePlan(db, id, purpose, now), EmailToken(id, purpose, expires, None);
    InvalidateExact(db, id, purpose, now);
    ApplyAllAppend(db, retire, [AddToken(Sha256(newToken), token)]);
    ApplyOne(ApplyAll(db, retire), AddToken(Sha256(newToken), token));
  }

  // ----- Registering -----

  /** A taken address is refused and nothing changes. A free one gets the account: normal address,
      this password and name, unverified, generation 0, signed in; and one token to verify it. */
  lemma RegisterExact(cfg: Settings, db: Db, now: int, email: string, password: string, name: Option<string>,
                      newId: UserId, newToken: string)
    requires Inv(db) && Fresh(db, Register(email, password, name, newId, newToken))
    ensures var req := Register(email, password, name, newId, newToken);
            var after, reply := ApplyAll(db, Plan(cfg, db, now, req)), ReplyTo(cfg, db, now, req);
            if exists id :: id in db.users && db.users[id].email == NormalizeEmail(email)
            then reply == EmailTaken && after == db
            else && after.users == db.users[newId := User(NormalizeEmail(email), Bcrypt(password), name, None, now, 0)]
                 && after.tokens == db.tokens[Sha256(newToken) :=
                      EmailToken(newId, VerifyPurpose, now + cfg.verifyTtlMinutes * MINUTE, None)]
                 && reply == SignedIn(TokenFor(cfg, after, newId, now), newId)
  {
    if FindUser(db, NormalizeEmail(email)).None? {
      RegisterServed(cfg, db, now, email, password, name, newId, newToken);
      AccountExact(cfg, db, now, NormalizeEmail(email), password, name, newId, newToken,
                   now + cfg.verifyTtlMinutes * MINUTE);
    }
  }

  lemma AccountExact(cfg: Settings, db: Db, now: int, normal: string, password: string, name: Option<string>,
                     newId: UserId, newToken: string, expires: int)
    requires Inv(db) && newId !in db.users && expires == now + cfg.verifyTtlMinutes * MINUTE
    ensures ApplyAll(db, AccountPlan(cfg, db, now, normal, password, name, newId, newToken))
         == Db(db.users[newId := User(normal, Bcrypt(password), name, None, now, 0)],
               db.tokens[Sha256(newToken) := EmailToken(newId, VerifyPurpose, expires, None)])
  {
    var add := AddUser(newId, User(normal, Bcrypt(password), name, None, now, 0));
    var created := db.(users := db.users[newId := add.user]);
    AccountParts(cfg, db, now, normal, password, name, newId, newToken);
    ApplyOne(db, add);
    ApplyAllAppend(db, [add], IssuePlan(created, newId, VerifyPurpose, newToken, now, cfg.verifyTtlMinutes));
    FirstToken(db, created, newId, VerifyPurpose, newToken, now, cfg.verifyTtlMinutes, expires);
  }

  lemma AccountParts(cfg: Settings, db: Db, now: int, normal: string, password: string, name: Option<string>,
                     newId: UserId, newToken: string)
    ensures var user := User(normal, Bcrypt(password), name, None, now, 0);
            var created := db.(users := db.users[newId := user]);
            && Apply(db, AddUser(newId, user)) == created
            && AccountPlan(cfg, db, now, normal, password, name, newId, newToken)
               == [AddUser(newId, user)] + IssuePlan(created, newId, VerifyPurpose, newToken, now, cfg.verifyTtlMinutes)
  {}

  lemma FirstToken(db: Db, state: Db, id: UserId, purpose: Purpose, newToken: string, now: int, ttlMinutes: int,
                   expires: int)
    requires Inv(db) && id !in db.users && state.tokens == db.tokens && expires == now + ttlMinutes * MINUTE
    ensures ApplyAll(state, IssuePlan(state, id, purpose, newToken, now, ttlMinutes))
         == state.(tokens := db.tokens[Sha256(newToken) := EmailToken(id, purpose, expires, None)])
  {
    IssueExact(state, id, purpose, newToken, now, ttlMinutes, expires);
    NothingToRetire(db, id, purpose, now);
  }

  lemma NothingToRetire(db: Db, id: UserId, purpose: Purpose, now: int)
    requires Inv(db) && id !in db.users
    ensures Retired(db.tokens, id, purpose, now) == db.tokens
  {}

  /** The password given at registration, and no other, signs the new user in. */
  lemma RegisteredSignsIn(cfg: Settings, db: Db, now: int, email: string, password: string, name: Option<string>,
                          newId: UserId, newToken: string, spelling: string, attempt: string, t: int)
    requires Inv(db) && Fresh(db, Register(email, password, name, newId, newToken))
    requires FindUser(db, NormalizeEmail(email)).None? && NormalizeEmail(spelling) == NormalizeEmail(email)
    ensures var after := ApplyAll(db, Plan(cfg, db, now, Register(email, password, name, newId, newToken)));
            var reply := ReplyTo(cfg, after, t, Login(spelling, attempt));
            && (reply.SignedIn? && reply.user == newId <==> attempt == password)
            && (attempt != password ==> reply == BadCredentials)
  {
    var req := Register(email, password, name, newId, newToken);
    var after := ApplyAll(db, Plan(cfg, db, now, req));
    RegisterExact(cfg, db, now, email, password, name, newId, newToken);
    PlanOk(cfg, db, now, req);
    ChainKeepsInv(db, Plan(cfg, db, now, req));
    LoginExact(cfg, after, t, spelling, attempt, newId);
    OnlyByAddress(cfg, after, t, spelling, attempt, newId);
  }

  lemma OnlyByAddress(cfg: Settings, db: Db, t: int, email: string, attempt: string, id: UserId)
    requires Inv(db) && id in db.users && db.users[id].email == NormalizeEmail(email)
    ensures var reply := ReplyTo(cfg, db, t, Login(email, attempt)); reply.SignedIn? ==> reply.user == id
  {
    FoundIff(db, NormalizeEmail(email), id);
  }

  // ----- Verifying an address -----

  /** A stored token that is for the purpose, unused and not expired. */
  predicate Presentable(db: Db, purpose: Purpose, d: Digest, now: int) {
    && d in db.tokens && db.tokens[d].purpose == purpose && db.tokens[d].usedAt == None
    && now < db.tokens[d].expiresAt
  }

  /** A presentable token is used up and its user's address is verified, as of now if it was not;
      nothing else changes. Any other token is answered as invalid and changes nothing. */
  lemma VerifyExact(cfg: Settings, db: Db, now: int, raw: string)
    requires Inv(db)
    ensures var d, req := Sha256(raw), VerifyEmail(raw);
            var after, reply := ApplyAll(db, Plan(cfg, db, now, req)), ReplyTo(cfg, db, now, req);
            if !Presentable(db, VerifyPurpose, d, now) then reply == InvalidToken && after == db
            else var id := db.tokens[d].user;
                 && id in db.users && reply == Confirmed(id)
                 && after.tokens == db.tokens[d := db.tokens[d].(usedAt := Some(now))]
                 && after.users == db.users[id := Verified(db.users[id], now)]
  {
    VerifyServed(cfg, db, now, raw);
    if Presentable(db, VerifyPurpose, Sha256(raw), now) { VerifyState(db, now, Sha256(raw)); }
  }

  lemma VerifyServed(cfg: Settings, db: Db, now: int, raw: string)
    requires Inv(db)
    ensures var d, req := Sha256(raw), VerifyEmail(raw);
            if Presentable(db, VerifyPurpose, d, now)
            then && Plan(cfg, db, now, req) == [UseTokens({d}, now)] + VerifiedPlan(db, db.tokens[d].user, now)
                 && ReplyTo(cfg, db, now, req) == Confirmed(db.tokens[d].user)
            else Plan(cfg, db, now, req) == [] && ReplyTo(cfg, db, now, req) == InvalidToken
  {}

  lemma VerifyState(db: Db, now: int, d: Digest)
    requires d in db.tokens && db.tokens[d].user in db.users
    ensures var id := db.tokens[d].user;
            ApplyAll(db, [UseTokens({d}, now)] + VerifiedPlan(db, id, now))
            == Db(db.users[id := Verified(db.users[id], now)], db.tokens[d := db.tokens[d].(usedAt := Some(now))])
  {
    var id, consume := db.tokens[d].user, UseTokens({d}, now);
    ApplyOne(db, consume);
    ApplyAllAppend(db, [consume], VerifiedPlan(db, id, now));
    MarkExact(db, Apply(db, consume), id, now);
    ConsumedAlone(db, now, d);
  }

  /** Presenting a usable verification token verifies the address of the user it was issued to, for
      good, uses the token up, and leaves every other user and token alone. */
  lemma VerifyVerifies(cfg: Settings, db: Db, now: int, raw: string, id: UserId)
    requires Inv(db) && Usable(db, VerifyPurpose, Sha256(raw), now) && db.tokens[Sha256(raw)].user == id
    ensures var after := ApplyAll(db, Plan(cfg, db, now, VerifyEmail(raw)));
            && id in after.users && after.users[id].verifiedAt.Some?
            && (db.users[id].verifiedAt.Some? ==> after.users[id] == db.users[id])
            && after.users.Keys == db.users.Keys && after.tokens.Keys == db.tokens.Keys
            && (forall other :: other in db.users && other != id ==> after.users[other] == db.users[other])
            && after.tokens[Sha256(raw)].usedAt == Some(now)
            && (forall d :: d in db.tokens && d != Sha256(raw) ==> after.tokens[d] == db.tokens[d])
            && ReplyTo(cfg, db, now, VerifyEmail(raw)) == Confirmed(id)
  {
    VerifyExact(cfg, db, now, raw);
  }

  function Verified(user: User, now: int): User {
    if user.verifiedAt.Some? then user else user.(verifiedAt := Some(now))
  }

  lemma MarkExact(db: Db, state: Db, id: UserId, now: int)
    requires id in db.users && id in state.users && state.users[id].verifiedAt == db.users[id].verifiedAt
    ensures ApplyAll(state, VerifiedPlan(db, id, now))
         == state.(users := state.users[id := Verified(state.users[id], now)])
  {
    ApplyOne(state, MarkVerified(id, now));
  }

  // ----- Asking for a token -----

  /** Only an accepted, unverified user gets a new verification token, and it replaces the others. */
  lemma ResendExact(cfg: Settings, db: Db, now: int, bearer: Bearer, newToken: string, expires: int)
    requires expires == now + cfg.verifyTtlMinutes * MINUTE
    ensures var req := ResendVerification(bearer, newToken);
            var after, reply := ApplyAll(db, Plan(cfg, db, now, req)), ReplyTo(cfg, db, now, req);
            match CurrentUser(db, now, bearer)
            case None => reply == NotAuthenticated && after == db
            case Some(id) =>
              && id in db.users
              && if db.users[id].verifiedAt != None then reply == AlreadyVerified && after == db
                 else reply == MailSent && after == AfterIssue(db, id, VerifyPurpose, newToken, now, expires)
  {
    ResendServed(cfg, db, now, bearer, newToken);
    var current := CurrentUser(db, now, bearer);
    if current.Some? { IssueExact(db, current.value, VerifyPurpose, newToken, now, cfg.verifyTtlMinutes, expires); }
  }

  lemma ResendServed(cfg: Settings, db: Db, now: int, bearer: Bearer, newToken: string)
    ensures var req := ResendVerification(bearer, newToken);
            var plan, reply := Plan(cfg, db, now, req), ReplyTo(cfg, db, now, req);
            match CurrentUser(db, now, bearer)
            case None => reply == NotAuthenticated && plan == []
            case Some(id) =>
              && id in db.users
              && if db.users[id].verifiedAt != None then reply == AlreadyVerified && plan == []
                 else reply == MailSent && plan == IssuePlan(db, id, VerifyPurpose, newToken, now, cfg.verifyTtlMinutes)
  {}

  /** The user of the address, if there is one, gets a new reset token that replaces the others. */
  lemma ForgotExact(cfg: Settings, db: Db, now: int, email: string, newToken: string, id: UserId, expires: int)
    requires Inv(db) && id in db.users && db.users[id].email == NormalizeEmail(email)
    requires expires == now + cfg.resetTtlMinutes * MINUTE
    ensures var req := ForgotPassword(email, newToken);
            && ReplyTo(cfg, db, now, req) == GenericAck
            && ApplyAll(db, Plan(cfg, db, now, req)) == AfterIssue(db, id, ResetPurpose, newToken, now, expires)
  {
    ForgotServed(cfg, db, now, email, newToken);
    FoundIff(db, NormalizeEmail(email), id);
    IssueExact(db, id, ResetPurpose, newToken, now, cfg.resetTtlMinutes, expires);
  }

  /** Without such a user nothing happens, and the answer does not tell. */
  lemma ForgotUnknown(cfg: Settings, db: Db, now: int, email: string, newToken: string)
    requires forall i :: i in db.users ==> db.users[i].email != NormalizeEmail(email)
    ensures var req := ForgotPassword(email, newToken);
            ReplyTo(cfg, db, now, req) == GenericAck && ApplyAll(db, Plan(cfg, db, now, req)) == db
  {
    ForgotServed(cfg, db, now, email, newToken);
  }

  // ----- Resetting a password -----

  function NewPassword(user: User, password: string, now: int): User {
    Verified(user.(passwordHash := Bcrypt(password), changedAt := now, tokenVersion := user.tokenVersion + 1), now)
  }

  /** A presentable token is used up; its user gets the password, the next generation and a
      verified address, and is signed in; nothing else changes. Any other token is answered as
      invalid and changes nothing. */
  lemma ResetExact(cfg: Settings, db: Db, now: int, raw: string, password: string)
    requires Inv(db)
    ensures var d, req := Sha256(raw), ResetPassword(raw, password);
            var after, reply := ApplyAll(db, Plan(cfg, db, now, req)), ReplyTo(cfg, db, now, req);
            if !Presentable(db, ResetPurpose, d, now) then reply == InvalidToken && after == db
            else var id := db.tokens[d].user;
                 && id in db.users
                 && after.tokens == db.tokens[d := db.tokens[d].(usedAt := Some(now))]
                 && after.users == db.users[id := NewPassword(db.users[id], password, now)]
                 && reply == SignedIn(TokenFor(cfg, after, id, now), id)
  {
    var d := Sha256(raw);
    if Presentable(db, ResetPurpose, d, now) {
      ResetPlanned(cfg, db, now, raw, password);
      ResetAnswered(cfg, db, now, raw, password, ResetPlan(db, now, d, password));
      ResetState(db, now, d, password);
    }
  }

  lemma ResetState(db: Db, now: int, d: Digest, password: string)
    requires Inv(db) && Presentable(db, ResetPurpose, d, now)
    ensures ApplyAll(db, ResetPlan(db, now, d, password))
         == Db(db.users[db.tokens[d].user := NewPassword(db.users[db.tokens[d].user], password, now)],
               db.tokens[d := db.tokens[d].(usedAt := Some(now))])
  {
    var id := db.tokens[d].user;
    var retire := RetirePlan(db, d, id, now);
    RetireState(db, now, d);
    ApplyAllAppend(db, retire, ChangePlan(db, id, Bcrypt(password), now));
    ChangeState(db, ApplyAll(db, retire), id, password, now);
  }

  lemma RetireState(db: Db, now: int, d: Digest)
    requires Inv(db) && Presentable(db, ResetPurpose, d, now)
    ensures ApplyAll(db, RetirePlan(db, d, db.tokens[d].user, now))
         == db.(tokens := db.tokens[d := db.tokens[d].(usedAt := Some(now))])
  {
    var id, consume := db.tokens[d].user, UseTokens({d}, now);
    ApplyOne(db, consume);
    ApplyAllAppend(db, [consume], InvalidatePlan(Apply(db, consume), id, ResetPurpose, now));
    InvalidateExact(Apply(db, consume), id, ResetPurpose, now);
    ConsumedAlone(db, now, d);
    ConsumedIsLast(db, now, d);
  }

  lemma ConsumedAlone(db: Db, now: int, d: Digest)
    requires d in db.tokens
    ensures Apply(db, UseTokens({d}, now)) == db.(tokens := db.tokens[d := db.tokens[d].(usedAt := Some(now))])
  {
    assert Apply(db, UseTokens({d}, now)).tokens == db.tokens[d := db.tokens[d].(usedAt := Some(now))];
  }

  /** With the presented token used up the user has no unused reset token left. */
  lemma ConsumedIsLast(db: Db, now: int, d: Digest)
    requires Inv(db) && Presentable(db, ResetPurpose, d, now)
    ensures var left := db.tokens[d := db.tokens[d].(usedAt := Some(now))];
            Retired(left, db.tokens[d].user, ResetPurpose, now) == left
  {}

  lemma ChangeState(db: Db, state: Db, id: UserId, password: string, now: int)
    requires id in db.users && state.users == db.users
    ensures ApplyAll(state, ChangePlan(db, id, Bcrypt(password), now))
         == state.(users := db.users[id := NewPassword(db.users[id], password, now)])
  {
    var change := ChangePassword(id, Bcrypt(password), now);
    ApplyOne(state, change);
    ApplyAllAppend(state, [change], VerifiedPlan(db, id, now));
    MarkExact(db, Apply(state, change), id, now);
  }

  // ----- How long a token stays live -----

  /** The requests that use up a stored token: presenting it in time at its own endpoint, and
      having another one of its kind issued to its user. */
  ghost predicate Supersedes(db: Db, now: int, req: Request, d: Digest)
    requires d in db.tokens
  {
    var id, purpose := db.tokens[d].user, db.tokens[d].purpose;
    match req
    case VerifyEmail(raw) => d == Sha256(raw) && Presentable(db, VerifyPurpose, d, now)
    case ResetPassword(raw, _) => d == Sha256(raw) && Presentable(db, ResetPurpose, d, now)
    case ResendVerification(bearer, _) =>
      && purpose == VerifyPurpose && CurrentUser(db, now, bearer) == Some(id)
      && id in db.users && db.users[id].verifiedAt.None?
    case ForgotPassword(email, _) =>
      purpose == ResetPurpose && id in db.users && db.users[id].email == NormalizeEmail(email)
    case Register(_, _, _, _, _) => false
    case Login(_, _) => false
  }

  predicate Uses(c: Commit, d: Digest) { c.UseTokens? && d in c.digests }

  predicate NoneUses(commits: seq<Commit>, d: Digest) {
    forall k :: 0 <= k < |commits| ==> !Uses(commits[k], d)
  }

  lemma {:induction false} UntouchedStays(db: Db, commits: seq<Commit>, d: Digest)
    requires OkChain(db, commits) && d in db.tokens && NoneUses(commits, d)
    ensures d in ApplyAll(db, commits).tokens && ApplyAll(db, commits).tokens[d] == db.tokens[d]
  {
    if commits != [] { UntouchedStays(db, commits[..|commits| - 1], d); }
  }

  lemma IssueUses(db: Db, id: UserId, purpose: Purpose, newToken: string, now: int, ttlMinutes: int, d: Digest)
    requires d in db.tokens && db.tokens[d].usedAt.None?
    ensures var plan := IssuePlan(db, id, purpose, newToken, now, ttlMinutes);
            if db.tokens[d].user == id && db.tokens[d].purpose == purpose then plan != [] && Uses(plan[0], d)
            else NoneUses(plan, d)
  {
    if db.tokens[d].user == id && db.tokens[d].purpose == purpose { assert d in Outstanding(db, id, purpose); }
  }

  lemma ResetUses(db: Db, now: int, presented: Digest, password: string, d: Digest)
    requires Inv(db) && Presentable(db, ResetPurpose, presented, now) && d in db.tokens && d != presented
    ensures NoneUses(ResetPlan(db, now, presented, password), d)
  {
    NothingElseToRetire(db, now, presented);
    ResetParts(db, now, presented, password);
    OnlyPresented(db, db.tokens[presented].user, now, presented, d);
    NoneUsesJoin(RetirePlan(db, presented, db.tokens[presented].user, now),
                 [ChangePassword(db.tokens[presented].user, Bcrypt(password), now)],
                 VerifiedPlan(db, db.tokens[presented].user, now), d);
  }

  lemma OnlyPresented(db: Db, id: UserId, now: int, presented: Digest, d: Digest)
    requires |RetirePlan(db, presented, id, now)| == 1 && d != presented
    ensures NoneUses(RetirePlan(db, presented, id, now), d)
  {}

  lemma NoneUsesJoin(a: seq<Commit>, b: seq<Commit>, c: seq<Commit>, d: Digest)
    requires NoneUses(a, d) && NoneUses(b, d) && NoneUses(c, d)
    ensures NoneUses(a + b + c, d)
  {}

  lemma ForgotUses(cfg: Settings, db: Db, now: int, email: string, newToken: string, d: Digest)
    requires Inv(db) && d in db.tokens && db.tokens[d].usedAt.None?
    ensures var plan := Plan(cfg, db, now, ForgotPassword(email, newToken));
            if db.tokens[d].purpose == ResetPurpose && db.users[db.tokens[d].user].email == NormalizeEmail(email)
            then plan != [] && Uses(plan[0], d) else NoneUses(plan, d)
  {
    var found := FindUser(db, NormalizeEmail(email));
    ForgotServed(cfg, db, now, email, newToken);
    FoundIff(db, NormalizeEmail(email), db.tokens[d].user);
    if found.Some? { IssueUses(db, found.value, ResetPurpose, newToken, now, cfg.resetTtlMinutes, d); }
  }

  lemma ResendUses(cfg: Settings, db: Db, now: int, bearer: Bearer, newToken: string, d: Digest)
    requires Inv(db) && d in db.tokens && db.tokens[d].usedAt.None?
    ensures var plan := Plan(cfg, db, now, ResendVerification(bearer, newToken));
            var id := db.tokens[d].user;
            if && db.tokens[d].purpose == VerifyPurpose && CurrentUser(db, now, bearer) == Some(id)
               && db.users[id].verifiedAt.None?
            then plan != [] && Uses(plan[0], d) else NoneUses(plan, d)
  {
    var current := CurrentUser(db, now, bearer);
    ResendServed(cfg, db, now, bearer, newToken);
    if current.Some? { IssueUses(db, current.value, VerifyPurpose, newToken, now, cfg.verifyTtlMinutes, d); }
  }

  lemma PresentedUses(cfg: Settings, db: Db, now: int, raw: string, password: string, d: Digest)
    requires Inv(db) && d in db.tokens && db.tokens[d].usedAt.None?
    ensures var plan := Plan(cfg, db, now, ResetPassword(raw, password));
            if d == Sha256(raw) && Presentable(db, ResetPurpose, d, now) then plan != [] && Uses(plan[0], d)
            else NoneUses(plan, d)
  {
    if Presentable(db, ResetPurpose, Sha256(raw), now) {
      ResetPlanned(cfg, db, now, raw, password);
      if d != Sha256(raw) { ResetUses(db, now, Sha256(raw), password, d); }
    }
  }

  lemma RegisterUses(cfg: Settings, db: Db, now: int, email: string, password: string, name: Option<string>,
                     newId: UserId, newToken: string, d: Digest)
    requires Inv(db) && newId !in db.users && d in db.tokens && db.tokens[d].usedAt.None?
    ensures NoneUses(Plan(cfg, db, now, Register(email, password, name, newId, newToken)), d)
  {
    if FindUser(db, NormalizeEmail(email)).None? {
      RegisterServed(cfg, db, now, email, password, name, newId, newToken);
      AccountUses(cfg, db, now, NormalizeEmail(email), password, name, newId, newToken, d);
    }
  }

  lemma LinkUses(cfg: Settings, db: Db, now: int, raw: string, d: Digest)
    requires Inv(db) && d in db.tokens && db.tokens[d].usedAt.None?
    ensures var plan := Plan(cfg, db, now, VerifyEmail(raw));
            if d == Sha256(raw) && Presentable(db, VerifyPurpose, d, now) then plan != [] && Uses(plan[0], d)
            else NoneUses(plan, d)
  {
    VerifyServed(cfg, db, now, raw);
  }

  /** A superseding request uses the token up in its first commit, any other in none. */
  lemma PlanUses(cfg: Settings, db: Db, now: int, req: Request, d: Digest)
    requires Inv(db) && Fresh(db, req) && d in db.tokens && db.tokens[d].usedAt.None?
    ensures var plan := Plan(cfg, db, now, req);
            if Supersedes(db, now, req, d) then plan != [] && Uses(plan[0], d) else NoneUses(plan, d)
  {
    match req
    case Register(email, password, name, newId, newToken) =>
      RegisterUses(cfg, db, now, email, password, name, newId, newToken, d);
    case Login(_, _) =>
    case VerifyEmail(raw) => LinkUses(cfg, db, now, raw, d);
    case ResendVerification(bearer, newToken) => ResendUses(cfg, db, now, bearer, newToken, d);
    case ForgotPassword(email, newToken) => ForgotUses(cfg, db, now, email, newToken, d);
    case ResetPassword(raw, password) => PresentedUses(cfg, db, now, raw, password, d);
  }

  lemma AccountUses(cfg: Settings, db: Db, now: int, normal: string, password: string, name: Option<string>,
                    newId: UserId, newToken: string, d: Digest)
    requires Inv(db) && newId !in db.users && d in db.tokens && db.tokens[d].usedAt.None?
    ensures NoneUses(AccountPlan(cfg, db, now, normal, password, name, newId, newToken), d)
  {
    var created := Apply(db, AddUser(newId, User(normal, Bcrypt(password), name, None, now, 0)));
    IssueUses(created, newId, VerifyPurpose, newToken, now, cfg.verifyTtlMinutes, d);
  }

  /** Whether a live token is still live after a request, wherever that was stopped. */
  lemma StaysLiveIff(cfg: Settings, db: Db, ev: Event, d: Digest)
    requires Inv(db) && Fresh(db, ev.req) && d in db.tokens && db.tokens[d].usedAt.None?
    ensures d in After(cfg, db, ev).tokens
    ensures After(cfg, db, ev).tokens[d].usedAt.None? <==> ev.stop == 0 || !Supersedes(db, ev.now, ev.req, d)
  {
    var effect := Effect(cfg, db, ev);
    EffectOk(cfg, db, ev);
    PlanUses(cfg, db, ev.now, ev.req, d);
    if ev.stop > 0 && Supersedes(db, ev.now, ev.req, d) {
      FirstUses(db, effect, d);
    } else {
      UntouchedStays(db, effect, d);
    }
  }

  lemma FirstUses(db: Db, commits: seq<Commit>, d: Digest)
    requires OkChain(db, commits) && d in db.tokens && commits != [] && Uses(commits[0], d)
    ensures d in ApplyAll(db, commits).tokens && ApplyAll(db, commits).tokens[d].usedAt.Some?
  {
    var first, rest := commits[0], commits[1..];
    assert commits == [first] + rest;
    ChainSuffix(db, [first], rest);
    ApplyAllAppend(db, [first], rest);
    ApplyOne(db, first);
    TokenPersists(Apply(db, first), rest, d);
  }

  /** No request of the run makes a commit and supersedes the token in the state it meets. */
  ghost predicate NeverSuperseded(cfg: Settings, db: Db, events: seq<Event>, d: Digest)
    decreases |events|
  {
    events != [] ==>
      var front, last := events[..|events| - 1], events[|events| - 1];
      var met := RunFrom(cfg, db, front);
      && NeverSuperseded(cfg, db, front, d)
      && (last.stop == 0 || d !in met.tokens || !Supersedes(met, last.now, last.req, d))
  }

  /** A token that is live stays so over a run exactly until a request supersedes it, with whatever
      crashes: nothing but these requests ever uses it up. */
  lemma {:induction false} LiveOverRunIff(cfg: Settings, db: Db, events: seq<Event>, d: Digest)
    requires Inv(db) && ValidRun(cfg, db, events) && d in db.tokens && db.tokens[d].usedAt.None?
    ensures d in RunFrom(cfg, db, events).tokens
    ensures RunFrom(cfg, db, events).tokens[d].usedAt.None? <==> NeverSuperseded(cfg, db, events, d)
    decreases |events|
  {
    if events != [] {
      var front, last := events[..|events| - 1], events[|events| - 1];
      assert events == front + [last];
      RunSnoc(cfg, db, front, last);
      InvariantAlways(cfg, db, front);
      LiveOverRunIff(cfg, db, front, d);
      LastOfRun(cfg, RunFrom(cfg, db, front), last, d);
    }
  }

  lemma LastOfRun(cfg: Settings, db: Db, ev: Event, d: Digest)
    requires Inv(db) && Fresh(db, ev.req) && d in db.tokens
    ensures d in After(cfg, db, ev).tokens
    ensures After(cfg, db, ev).tokens[d].usedAt.None?
       <==> db.tokens[d].usedAt.None? && (ev.stop == 0 || !Supersedes(db, ev.now, ev.req, d))
  {
    if db.tokens[d].usedAt.None? {
      StaysLiveIff(cfg, db, ev, d);
    } else {
      EffectOk(cfg, db, ev);
      TokenPersists(db, Effect(cfg, db, ev), d);
    }
  }
}
