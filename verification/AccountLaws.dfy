/** What holds in every state that requests, crashes and retries can reach. */
module AccountLaws {
  import opened Wrappers
  import opened AscendingSets
  import opened Accounts
  import opened AccountStore

  // ----- Single commits -----

  /** What the handlers see to before they make a commit. */
  ghost predicate OkCommit(db: Db, c: Commit) {
    match c
    case AddUser(id, user) =>
      && id !in db.users && user.tokenVersion == 0 && user.verifiedAt.None? && NormalizeEmail(user.email) == user.email
      && (forall i :: i in db.users ==> db.users[i].email != user.email)
    case AddToken(digest, token) =>
      && digest !in db.tokens && token.user in db.users && token.usedAt.None?
      && Outstanding(db, token.user, token.purpose) == {}
    case UseTokens(digests, _) => digests <= db.tokens.Keys
    case ChangePassword(id, _, _) => id in db.users
    case MarkVerified(id, _) => id in db.users
  }

  ghost predicate OkChain(db: Db, commits: seq<Commit>) {
    commits != [] ==>
      && OkChain(db, commits[..|commits| - 1])
      && OkCommit(ApplyAll(db, commits[..|commits| - 1]), commits[|commits| - 1])
  }

  lemma AddTokenKeepsInv(db: Db, digest: Digest, token: EmailToken)
    requires Inv(db) && OkCommit(db, AddToken(digest, token))
    ensures Inv(Apply(db, AddToken(digest, token)))
  {
    forall d | d in db.tokens && db.tokens[d].user == token.user && db.tokens[d].purpose == token.purpose
      ensures db.tokens[d].usedAt.Some?
    {
      assert d !in Outstanding(db, token.user, token.purpose);
    }
  }

  lemma UseTokensKeepsInv(db: Db, digests: set<Digest>, at: int)
    requires Inv(db)
    ensures Inv(Apply(db, UseTokens(digests, at)))
  {
    var after := Apply(db, UseTokens(digests, at));
    forall d | d in after.tokens
      ensures d in db.tokens && after.tokens[d].user == db.tokens[d].user && after.tokens[d].purpose == db.tokens[d].purpose
      ensures after.tokens[d].usedAt.None? ==> db.tokens[d].usedAt.None?
    {}
  }

  /** Changing a user in anything but the address. */
  lemma EditUserKeepsInv(db: Db, id: UserId, user: User)
    requires Inv(db) && id in db.users && user.email == db.users[id].email
    ensures Inv(db.(users := db.users[id := user]))
  {}

  lemma AddUserKeepsInv(db: Db, id: UserId, user: User)
    requires Inv(db) && OkCommit(db, AddUser(id, user))
    ensures Inv(Apply(db, AddUser(id, user)))
  {}

  lemma CommitKeepsInv(db: Db, c: Commit)
    requires Inv(db) && OkCommit(db, c)
    ensures Inv(Apply(db, c))
  {
    match c
    case AddUser(id, user) => AddUserKeepsInv(db, id, user);
    case AddToken(digest, token) => AddTokenKeepsInv(db, digest, token);
    case UseTokens(digests, at) => UseTokensKeepsInv(db, digests, at);
    case ChangePassword(id, _, _) => EditUserKeepsInv(db, id, Apply(db, c).users[id]);
    case MarkVerified(id, _) => EditUserKeepsInv(db, id, Apply(db, c).users[id]);
  }

  lemma {:induction false} ChainKeepsInv(db: Db, commits: seq<Commit>)
    requires Inv(db) && OkChain(db, commits)
    ensures Inv(ApplyAll(db, commits))
  {
    if commits != [] {
      ChainKeepsInv(db, commits[..|commits| - 1]);
      CommitKeepsInv(ApplyAll(db, commits[..|commits| - 1]), commits[|commits| - 1]);
    }
  }

  lemma {:induction false} ChainPrefix(db: Db, commits: seq<Commit>, k: nat)
    requires OkChain(db, commits) && k <= |commits|
    ensures OkChain(db, commits[..k])
  {
    if k == |commits| {
      assert commits[..k] == commits;
    } else {
      ChainPrefix(db, commits[..|commits| - 1], k);
      assert commits[..|commits| - 1][..k] == commits[..k];
    }
  }

  lemma {:induction false} ChainAppend(db: Db, a: seq<Commit>, b: seq<Commit>)
    requires OkChain(db, a) && OkChain(ApplyAll(db, a), b)
    ensures OkChain(db, a + b)
  {
    if b == [] {
      assert a + b == a;
    } else {
      var front := b[..|b| - 1];
      ChainAppend(db, a, front);
      ApplyAllAppend(db, a, front);
      assert (a + b)[..|a + b| - 1] == a + front;
    }
  }

  lemma ChainOne(db: Db, c: Commit)
    requires OkCommit(db, c)
    ensures OkChain(db, [c])
  {
    assert [c][..0] == [];
    assert ApplyAll(db, [c][..0]) == db;
  }

  // ----- Plans are well-formed -----

  lemma InvalidateOk(db: Db, id: UserId, purpose: Purpose, now: int)
    ensures var plan := InvalidatePlan(db, id, purpose, now);
            && OkChain(db, plan)
            && ApplyAll(db, plan).users == db.users
            && ApplyAll(db, plan).tokens.Keys == db.tokens.Keys
            && Outstanding(ApplyAll(db, plan), id, purpose) == {}
  {
    var all := Outstanding(db, id, purpose);
    if all != {} {
      ChainOne(db, UseTokens(all, now));
      ApplyOne(db, UseTokens(all, now));
    }
  }

  lemma IssueOk(db: Db, id: UserId, purpose: Purpose, newToken: string, now: int, ttlMinutes: int)
    requires id in db.users && Sha256(newToken) !in db.tokens
    ensures OkChain(db, IssuePlan(db, id, purpose, newToken, now, ttlMinutes))
  {
    var retire := InvalidatePlan(db, id, purpose, now);
    var add := AddToken(Sha256(newToken), EmailToken(id, purpose, now + ttlMinutes * MINUTE, None));
    InvalidateOk(db, id, purpose, now);
    ChainOne(ApplyAll(db, retire), add);
    ChainAppend(db, retire, [add]);
  }

  lemma VerifiedOk(db: Db, state: Db, id: UserId, now: int)
    requires db.users.Keys == state.users.Keys
    ensures OkChain(state, VerifiedPlan(db, id, now))
  {
    if id in db.users { ChainOne(state, MarkVerified(id, now)); }
  }

  lemma AccountOk(cfg: Settings, db: Db, now: int, normal: string, password: string, name: Option<string>,
                  newId: UserId, newToken: string)
    requires NormalizeEmail(normal) == normal && FindUser(db, normal).None?
    requires newId !in db.users && Sha256(newToken) !in db.tokens
    ensures OkChain(db, AccountPlan(cfg, db, now, normal, password, name, newId, newToken))
  {
    var add := AddUser(newId, User(normal, Bcrypt(password), name, None, now, 0));
    ChainOne(db, add);
    ApplyOne(db, add);
    IssueOk(Apply(db, add), newId, VerifyPurpose, newToken, now, cfg.verifyTtlMinutes);
    ChainAppend(db, [add], IssuePlan(Apply(db, add), newId, VerifyPurpose, newToken, now, cfg.verifyTtlMinutes));
  }

  lemma RetireOk(db: Db, digest: Digest, id: UserId, now: int)
    requires digest in db.tokens
    ensures OkChain(db, RetirePlan(db, digest, id, now))
  {
    var consume := UseTokens({digest}, now);
    ChainOne(db, consume);
    ApplyOne(db, consume);
    InvalidateOk(Apply(db, consume), id, ResetPurpose, now);
    ChainAppend(db, [consume], InvalidatePlan(Apply(db, consume), id, ResetPurpose, now));
  }

  lemma ChangeOk(db: Db, state: Db, id: UserId, hash: PasswordHash, now: int)
    requires id in db.users && state.users == db.users
    ensures OkChain(state, ChangePlan(db, id, hash, now))
  {
    var change := ChangePassword(id, hash, now);
    ChainOne(state, change);
    ApplyOne(state, change);
    VerifiedOk(db, Apply(state, change), id, now);
    ChainAppend(state, [change], VerifiedPlan(db, id, now));
  }

  lemma ResetOk(db: Db, now: int, digest: Digest, password: string)
    requires digest in db.tokens && db.tokens[digest].user in db.users
    ensures OkChain(db, ResetPlan(db, now, digest, password))
  {
    var id := db.tokens[digest].user;
    var retire := RetirePlan(db, digest, id, now);
    RetireOk(db, digest, id, now);
    RetireKeepsUsers(db, digest, id, now);
    ChangeOk(db, ApplyAll(db, retire), id, Bcrypt(password), now);
    ChainAppend(db, retire, ChangePlan(db, id, Bcrypt(password), now));
  }

  lemma PlanOk(cfg: Settings, db: Db, now: int, req: Request)
    requires Inv(db) && Fresh(db, req)
    ensures OkChain(db, Plan(cfg, db, now, req))
  {
    match req
    case Register(email, password, name, newId, newToken) =>
      if FindUser(db, NormalizeEmail(email)).None? {
        NormalizeIdempotent(email);
        AccountOk(cfg, db, now, NormalizeEmail(email), password, name, newId, newToken);
      }
    case Login(_, _) =>
    case VerifyEmail(raw) =>
      if Plan(cfg, db, now, req) != [] {
        var consume := UseTokens({Sha256(raw)}, now);
        ChainOne(db, consume);
        ApplyOne(db, consume);
        VerifiedOk(db, Apply(db, consume), db.tokens[Sha256(raw)].user, now);
        ChainAppend(db, [consume], VerifiedPlan(db, db.tokens[Sha256(raw)].user, now));
      }
    case ResendVerification(bearer, newToken) =>
      var current := CurrentUser(db, now, bearer);
      if current.Some? { IssueOk(db, current.value, VerifyPurpose, newToken, now, cfg.verifyTtlMinutes); }
    case ForgotPassword(email, newToken) =>
      var found := FindUser(db, NormalizeEmail(email));
      if found.Some? { IssueOk(db, found.value, ResetPurpose, newToken, now, cfg.resetTtlMinutes); }
    case ResetPassword(raw, password) =>
      if Plan(cfg, db, now, req) != [] { ResetOk(db, now, Sha256(raw), password); }
  }

  lemma EffectOk(cfg: Settings, db: Db, ev: Event)
    requires Inv(db) && Fresh(db, ev.req)
    ensures OkChain(db, Effect(cfg, db, ev)) && Inv(After(cfg, db, ev))
  {
    PlanOk(cfg, db, ev.now, ev.req);
    var plan := Plan(cfg, db, ev.now, ev.req);
    ChainPrefix(db, plan, if ev.stop < |plan| then ev.stop else |plan|);
    assert plan[..|plan|] == plan;
    ChainKeepsInv(db, Effect(cfg, db, ev));
  }

  /** The invariant, with at most one unused token per user and purpose, holds after any run,
      each request of which may have been stopped after any of its commits. */
  lemma {:induction false} InvariantAlways(cfg: Settings, db: Db, events: seq<Event>)
    requires Inv(db) && ValidRun(cfg, db, events)
    ensures Inv(RunFrom(cfg, db, events))
    decreases |events|
  {
    if events != [] {
      EffectOk(cfg, db, events[0]);
      InvariantAlways(cfg, After(cfg, db, events[0]), events[1..]);
    }
  }

  // ----- Runs and their journals -----

  lemma {:induction false} ChainSuffix(db: Db, a: seq<Commit>, b: seq<Commit>)
    requires OkChain(db, a + b)
    ensures OkChain(db, a) && OkChain(ApplyAll(db, a), b)
  {
    if b == [] {
      assert a + b == a;
    } else {
      var front := b[..|b| - 1];
      assert (a + b)[..|a + b| - 1] == a + front;
      ChainSuffix(db, a, front);
      ApplyAllAppend(db, a, front);
    }
  }

  /** The journal of a run is a well-formed chain that leads to the run's last state. */
  lemma {:induction false} JournalOk(cfg: Settings, db: Db, events: seq<Event>)
    requires Inv(db) && ValidRun(cfg, db, events)
    ensures OkChain(db, JournalOf(cfg, db, events))
    ensures RunFrom(cfg, db, events) == ApplyAll(db, JournalOf(cfg, db, events))
    decreases |events|
  {
    if events != [] {
      var effect, next := Effect(cfg, db, events[0]), After(cfg, db, events[0]);
      EffectOk(cfg, db, events[0]);
      JournalOk(cfg, next, events[1..]);
      ChainAppend(db, effect, JournalOf(cfg, next, events[1..]));
      ApplyAllAppend(db, effect, JournalOf(cfg, next, events[1..]));
    }
  }

  lemma {:induction false} FoldAppend(effects: (Db, Event) -> seq<Commit>, db: Db, a: seq<Event>, b: seq<Event>)
    ensures FoldRun(effects, db, a + b) == FoldRun(effects, FoldRun(effects, db, a), b)
    ensures FoldJournal(effects, db, a + b)
         == FoldJournal(effects, db, a) + FoldJournal(effects, FoldRun(effects, db, a), b)
    ensures FoldFresh(effects, db, a + b)
       <==> FoldFresh(effects, db, a) && FoldFresh(effects, FoldRun(effects, db, a), b)
    decreases |a|
  {
    if a == [] {
      assert a + b == b;
    } else {
      FoldAppend(effects, ApplyAll(db, effects(db, a[0])), a[1..], b);
      assert (a + b)[0] == a[0] && (a + b)[1..] == a[1..] + b;
    }
  }

  lemma {:induction false} ChangesAppend(a: seq<Commit>, b: seq<Commit>, id: UserId)
    ensures Changes(a + b, id) == Changes(a, id) + Changes(b, id)
  {
    if b == [] {
      assert a + b == a;
    } else {
      ChangesAppend(a, b[..|b| - 1], id);
      assert (a + b)[..|a + b| - 1] == a + b[..|b| - 1];
    }
  }

  // ----- Sessions -----

  /** Every password change, and nothing else, moves a user's session generation by one. */
  lemma {:induction false} VersionsCount(db: Db, commits: seq<Commit>, id: UserId)
    requires OkChain(db, commits) && id in db.users
    ensures id in ApplyAll(db, commits).users
    ensures ApplyAll(db, commits).users[id].tokenVersion == db.users[id].tokenVersion + Changes(commits, id)
    ensures ApplyAll(db, commits).users[id].email == db.users[id].email
    ensures Changes(commits, id) == 0 ==>
              && ApplyAll(db, commits).users[id].passwordHash == db.users[id].passwordHash
              && ApplyAll(db, commits).users[id].changedAt == db.users[id].changedAt
  {
    if commits != [] { VersionsCount(db, commits[..|commits| - 1], id); }
  }

  lemma {:induction false} VersionsFromNothing(db: Db, commits: seq<Commit>, id: UserId)
    requires OkChain(db, commits) && id !in db.users
    ensures var after := ApplyAll(db, commits);
            if id in after.users then after.users[id].tokenVersion == Changes(commits, id) else Changes(commits, id) == 0
  {
    if commits != [] { VersionsFromNothing(db, commits[..|commits| - 1], id); }
  }

  /** Over any run from the empty database, `token_version` is the number of password changes. */
  lemma VersionIsNumberOfChanges(cfg: Settings, events: seq<Event>, id: UserId)
    requires ValidRun(cfg, EMPTY_DB, events) && id in RunFrom(cfg, EMPTY_DB, events).users
    ensures RunFrom(cfg, EMPTY_DB, events).users[id].tokenVersion == Changes(JournalOf(cfg, EMPTY_DB, events), id)
  {
    JournalOk(cfg, EMPTY_DB, events);
    VersionsFromNothing(EMPTY_DB, JournalOf(cfg, EMPTY_DB, events), id);
  }

  /** A session token minted in some state is accepted after any further run exactly when it
      decodes, which from its minting on means that it has not expired, and that run did not
      change the password of its user; password changes of other users do not matter. */
  lemma SessionAcceptedIff(cfg: Settings, db: Db, events: seq<Event>, id: UserId, mintedAt: int, now: int)
    requires Inv(db) && ValidRun(cfg, db, events) && id in db.users
    ensures var jwt := TokenFor(cfg, db, id, mintedAt);
            var later := RunFrom(cfg, db, events);
            && id in later.users && jwt.ver.value <= later.users[id].tokenVersion
            && (mintedAt <= now ==> (Decodes(jwt, now) <==> now < jwt.exp * SECOND))
            && CurrentUser(later, now, Signed(jwt))
               == if Decodes(jwt, now) && Changes(JournalOf(cfg, db, events), id) == 0 then Some(id) else None
  {
    JournalOk(cfg, db, events);
    VersionsCount(db, JournalOf(cfg, db, events), id);
  }

  /** Once a password change has made it stale, a session token is refused forever. */
  lemma StaleForever(cfg: Settings, db: Db, events: seq<Event>, more: seq<Event>, id: UserId, mintedAt: int, now: int)
    requires Inv(db) && ValidRun(cfg, db, events + more) && id in db.users
    requires Changes(JournalOf(cfg, db, events), id) > 0
    ensures CurrentUser(RunFrom(cfg, db, events + more), now, Signed(TokenFor(cfg, db, id, mintedAt))) == None
  {
    FoldAppend(Effects(cfg), db, events, more);
    ChangesAppend(JournalOf(cfg, db, events), JournalOf(cfg, RunFrom(cfg, db, events), more), id);
    SessionAcceptedIff(cfg, db, events + more, id, mintedAt, now);
  }

  /** Times are claimed in whole seconds: a session token decodes from the second it was minted
      in up to, and without, the second its lifetime ends in. So it decodes from its minting on,
      never once its lifetime is over, and until less than a second before. */
  lemma SessionLifetime(cfg: Settings, id: UserId, version: int, mintedAt: int, t: int)
    ensures var jwt, ends := CreateAccessToken(cfg, id, version, mintedAt), mintedAt + cfg.jwtExpireMinutes * 60_000_000;
            && (Decodes(jwt, t) <==> mintedAt / SECOND <= t / SECOND < ends / SECOND)
            && (Decodes(jwt, t) ==> mintedAt - SECOND < t < ends)
            && (mintedAt <= t <= ends - SECOND ==> Decodes(jwt, t))
  {}

  /** Every session token handed out is minted after the last commit of its request, so it is
      accepted in the state the request leaves, at once if sessions last a minute or more. */
  lemma RepliesMintLast(cfg: Settings, db: Db, now: int, req: Request, t: int)
    requires Inv(db) && Fresh(db, req) && ReplyTo(cfg, db, now, req).SignedIn?
    ensures var reply, after := ReplyTo(cfg, db, now, req), ApplyAll(db, Plan(cfg, db, now, req));
            && reply.user in after.users && reply.jwt == TokenFor(cfg, after, reply.user, now)
            && CurrentUser(after, t, Signed(reply.jwt)) == (if Decodes(reply.jwt, t) then Some(reply.user) else None)
            && (cfg.jwtExpireMinutes >= 1 ==> Decodes(reply.jwt, now))
  {
    MintedBySignIn(cfg, db, now, req);
    AcceptedWhereMinted(cfg, ApplyAll(db, Plan(cfg, db, now, req)), ReplyTo(cfg, db, now, req).user, now, t);
  }

  lemma AcceptedWhereMinted(cfg: Settings, db: Db, id: UserId, mintedAt: int, t: int)
    requires id in db.users
    ensures var jwt := TokenFor(cfg, db, id, mintedAt);
            && CurrentUser(db, t, Signed(jwt)) == (if Decodes(jwt, t) then Some(id) else None)
            && (cfg.jwtExpireMinutes >= 1 ==> Decodes(jwt, mintedAt))
  {}

  lemma MintedBySignIn(cfg: Settings, db: Db, now: int, req: Request)
    requires ReplyTo(cfg, db, now, req).SignedIn?
    ensures var reply, after := ReplyTo(cfg, db, now, req), ApplyAll(db, Plan(cfg, db, now, req));
            reply.user in after.users && reply.jwt == TokenFor(cfg, after, reply.user, now)
  {}

  /** A session token handed out in any run is accepted later in that run exactly when it
      decodes, which from its minting on means that it has not expired, and no request since
      has changed its user's password. */
  lemma HandedOutSession(cfg: Settings, before: seq<Event>, ev: Event, later: seq<Event>, t: int)
    requires ValidRun(cfg, EMPTY_DB, before + [ev]) && ValidRun(cfg, RunFrom(cfg, EMPTY_DB, before + [ev]), later)
    requires ev.stop >= |Plan(cfg, RunFrom(cfg, EMPTY_DB, before), ev.now, ev.req)|
    requires ReplyTo(cfg, RunFrom(cfg, EMPTY_DB, before), ev.now, ev.req).SignedIn?
    ensures var reply := ReplyTo(cfg, RunFrom(cfg, EMPTY_DB, before), ev.now, ev.req);
            var minted := RunFrom(cfg, EMPTY_DB, before + [ev]);
            && (CurrentUser(RunFrom(cfg, EMPTY_DB, before + [ev] + later), t, Signed(reply.jwt))
                == if Decodes(reply.jwt, t) && Changes(JournalOf(cfg, minted, later), reply.user) == 0
                   then Some(reply.user) else None)
            && (ev.now <= t ==> (Decodes(reply.jwt, t) <==> t < reply.jwt.exp * SECOND))
  {
    var db := RunFrom(cfg, EMPTY_DB, before);
    RunSnoc(cfg, EMPTY_DB, before, ev);
    InvariantAlways(cfg, EMPTY_DB, before + [ev]);
    InvariantAlways(cfg, EMPTY_DB, before);
    RepliesMintLast(cfg, db, ev.now, ev.req, t);
    FoldAppend(Effects(cfg), EMPTY_DB, before + [ev], later);
    SessionAcceptedIff(cfg, After(cfg, db, ev), later, ReplyTo(cfg, db, ev.now, ev.req).user, ev.now, t);
  }

  // ----- Email tokens -----

  /** Tokens are never deleted or readdressed, and a used one stays used. */
  lemma {:induction false} TokenPersists(db: Db, commits: seq<Commit>, d: Digest)
    requires OkChain(db, commits) && d in db.tokens
    ensures var after := ApplyAll(db, commits);
            && d in after.tokens
            && (db.tokens[d].usedAt.Some? ==> after.tokens[d].usedAt.Some?)
            && after.tokens[d] == db.tokens[d].(usedAt := after.tokens[d].usedAt)
  {
    if commits != [] { TokenPersists(db, commits[..|commits| - 1], d); }
  }

  /** The request presents this raw token and gets past its checks. */
  ghost predicate SucceedsWith(cfg: Settings, db: Db, ev: Event, raw: string) {
    && (ev.req == VerifyEmail(raw) || (ev.req.ResetPassword? && ev.req.raw == raw))
    && Effect(cfg, db, ev) != []
  }

  /** Getting past the checks means that the presented token is usable, and is used up first. */
  lemma SuccessConsumes(cfg: Settings, db: Db, ev: Event, raw: string)
    requires SucceedsWith(cfg, db, ev, raw)
    ensures Usable(db, if ev.req.VerifyEmail? then VerifyPurpose else ResetPurpose, Sha256(raw), ev.now)
    ensures Effect(cfg, db, ev)[0] == UseTokens({Sha256(raw)}, ev.now)
  {}

  lemma SuccessUsesToken(cfg: Settings, db: Db, ev: Event, raw: string)
    requires Inv(db) && Fresh(db, ev.req) && SucceedsWith(cfg, db, ev, raw)
    ensures Sha256(raw) in db.tokens && Sha256(raw) in After(cfg, db, ev).tokens
    ensures After(cfg, db, ev).tokens[Sha256(raw)].usedAt.Some?
  {
    EffectOk(cfg, db, ev);
    SuccessConsumes(cfg, db, ev, raw);
    ConsumedStaysUsed(db, Effect(cfg, db, ev), Sha256(raw), ev.now);
  }

  lemma ConsumedStaysUsed(db: Db, commits: seq<Commit>, d: Digest, at: int)
    requires OkChain(db, commits) && d in db.tokens && commits != [] && commits[0] == UseTokens({d}, at)
    ensures d in ApplyAll(db, commits).tokens && ApplyAll(db, commits).tokens[d].usedAt.Some?
  {
    var consume, rest := commits[0], commits[1..];
    assert commits == [consume] + rest;
    ChainSuffix(db, [consume], rest);
    ApplyAllAppend(db, [consume], rest);
    ApplyOne(db, consume);
    TokenPersists(Apply(db, consume), rest, d);
  }

  /** Presenting a used token changes nothing and is answered as invalid. */
  lemma UsedIsInvalid(cfg: Settings, db: Db, ev: Event, raw: string)
    requires ev.req == VerifyEmail(raw) || (ev.req.ResetPassword? && ev.req.raw == raw)
    requires Sha256(raw) in db.tokens && db.tokens[Sha256(raw)].usedAt.Some?
    ensures Effect(cfg, db, ev) == [] && ReplyTo(cfg, db, ev.now, ev.req) == InvalidToken
  {
    assert !Usable(db, VerifyPurpose, Sha256(raw), ev.now) && !Usable(db, ResetPurpose, Sha256(raw), ev.now);
    assert Plan(cfg, db, ev.now, ev.req) == [];
  }

  /** A raw token works once: whatever happened since, presenting it again at either endpoint
      makes no commit and is answered as invalid. */
  lemma SingleUse(cfg: Settings, db: Db, first: Event, others: seq<Event>, again: Event, raw: string)
    requires Inv(db) && ValidRun(cfg, db, [first] + others) && SucceedsWith(cfg, db, first, raw)
    requires again.req == VerifyEmail(raw) || (again.req.ResetPassword? && again.req.raw == raw)
    ensures var later := RunFrom(cfg, db, [first] + others);
            && Effect(cfg, later, again) == [] && !SucceedsWith(cfg, later, again, raw)
            && ReplyTo(cfg, later, again.now, again.req) == InvalidToken
  {
    var next := After(cfg, db, first);
    RunCons(cfg, db, first, others);
    SuccessUsesToken(cfg, db, first, raw);
    EffectOk(cfg, db, first);
    JournalOk(cfg, next, others);
    TokenPersists(next, JournalOf(cfg, next, others), Sha256(raw));
    UsedIsInvalid(cfg, RunFrom(cfg, next, others), again, raw);
  }

  lemma RunCons(cfg: Settings, db: Db, first: Event, others: seq<Event>)
    ensures RunFrom(cfg, db, [first] + others) == RunFrom(cfg, After(cfg, db, first), others)
    ensures ValidRun(cfg, db, [first] + others)
       <==> Fresh(db, first.req) && ValidRun(cfg, After(cfg, db, first), others)
  {
    assert ([first] + others)[1..] == others;
  }

  /** Issuing a token uses up every earlier one of the same user and purpose. */
  lemma IssueRetiresEarlier(db: Db, commits: seq<Commit>, k: nat, d: Digest)
    requires OkChain(db, commits) && k < |commits| && commits[k].AddToken? && d in db.tokens
    requires commits[k].token.user == db.tokens[d].user && commits[k].token.purpose == db.tokens[d].purpose
    ensures d in ApplyAll(db, commits).tokens && ApplyAll(db, commits).tokens[d].usedAt.Some?
  {
    var before, c, rest := commits[..k], commits[k], commits[k + 1..];
    assert commits == before + ([c] + rest);
    ChainSuffix(db, before, [c] + rest);
    ApplyAllAppend(db, before, [c] + rest);
    TokenPersists(db, before, d);
    var state := ApplyAll(db, before);
    ChainSuffix(state, [c], rest);
    OkFirst(state, c);
    assert d !in Outstanding(state, c.token.user, c.token.purpose);
    TokenPersists(state, [c] + rest, d);
  }

  lemma OkFirst(db: Db, c: Commit)
    requires OkChain(db, [c])
    ensures OkCommit(db, c)
  {
    assert [c][..0] == [];
    assert ApplyAll(db, [c][..0]) == db;
  }

  function Ttl(cfg: Settings, purpose: Purpose): int {
    match purpose
    case VerifyPurpose => cfg.verifyTtlMinutes * MINUTE
    case ResetPurpose => cfg.resetTtlMinutes * MINUTE
  }

  /** The request stores a token for this user and purpose. */
  ghost predicate Issues(cfg: Settings, db: Db, ev: Event, id: UserId, purpose: Purpose) {
    exists k :: && 0 <= k < |Effect(cfg, db, ev)| && Effect(cfg, db, ev)[k].AddToken?
                && Effect(cfg, db, ev)[k].token.user == id && Effect(cfg, db, ev)[k].token.purpose == purpose
  }

  ghost predicate IssuesToken(cfg: Settings, db: Db, ev: Event, d: Digest, token: EmailToken) {
    exists k :: 0 <= k < |Effect(cfg, db, ev)| && Effect(cfg, db, ev)[k] == AddToken(d, token)
  }

  lemma {:induction false} NewTokenWasAdded(db: Db, commits: seq<Commit>, d: Digest) returns (k: nat)
    requires OkChain(db, commits) && d !in db.tokens && d in ApplyAll(db, commits).tokens
    ensures k < |commits| && commits[k].AddToken? && commits[k].digest == d
    ensures ApplyAll(db, commits).tokens[d].usedAt.None? ==> ApplyAll(db, commits).tokens[d] == commits[k].token
  {
    var front, last := commits[..|commits| - 1], commits[|commits| - 1];
    if d in ApplyAll(db, front).tokens {
      k := NewTokenWasAdded(db, front, d);
    } else {
      k := |commits| - 1;
    }
  }

  predicate Timely(cfg: Settings, now: int, c: Commit) {
    c.AddToken? ==> c.token.expiresAt == now + Ttl(cfg, c.token.purpose) && c.token.usedAt.None?
  }

  /** Every token is issued unused, for the lifetime of its purpose. */
  lemma PlanIsTimely(cfg: Settings, db: Db, now: int, req: Request)
    ensures forall k :: 0 <= k < |Plan(cfg, db, now, req)| ==> Timely(cfg, now, Plan(cfg, db, now, req)[k])
  {
    match req
    case Register(_, _, _, _, _) =>
    case Login(_, _) =>
    case VerifyEmail(_) =>
    case ResendVerification(_, _) =>
    case ForgotPassword(_, _) =>
    case ResetPassword(_, _) =>
  }

  lemma IssuedLifetime(cfg: Settings, db: Db, ev: Event, k: nat)
    requires k < |Effect(cfg, db, ev)| && Effect(cfg, db, ev)[k].AddToken?
    ensures var token := Effect(cfg, db, ev)[k].token;
            token.expiresAt == ev.now + Ttl(cfg, token.purpose) && token.usedAt.None?
  {
    PlanIsTimely(cfg, db, ev.now, ev.req);
    assert Timely(cfg, ev.now, Plan(cfg, db, ev.now, ev.req)[k]);
  }

  /** The origin of a live token: some request issued it, for its lifetime, and no later
      request issued another one to the same user for the same purpose. */
  ghost predicate LiveSince(cfg: Settings, events: seq<Event>, k: nat, d: Digest, token: EmailToken) {
    && k < |events|
    && IssuesToken(cfg, RunFrom(cfg, EMPTY_DB, events[..k]), events[k], d, token)
    && token.expiresAt == events[k].now + Ttl(cfg, token.purpose)
    && (forall m :: k < m < |events| ==>
          !Issues(cfg, RunFrom(cfg, EMPTY_DB, events[..m]), events[m], token.user, token.purpose))
  }

  /** One more request: a token that is still live afterwards was not superseded by it. */
  lemma LiveStep(cfg: Settings, db: Db, ev: Event, d: Digest)
    requires Inv(db) && Fresh(db, ev.req) && d in db.tokens
    requires d in After(cfg, db, ev).tokens && After(cfg, db, ev).tokens[d].usedAt.None?
    ensures After(cfg, db, ev).tokens[d] == db.tokens[d]
    ensures !Issues(cfg, db, ev, db.tokens[d].user, db.tokens[d].purpose)
  {
    var effect := Effect(cfg, db, ev);
    EffectOk(cfg, db, ev);
    TokenPersists(db, effect, d);
    if Issues(cfg, db, ev, db.tokens[d].user, db.tokens[d].purpose) {
      var m :| 0 <= m < |effect| && effect[m].AddToken? && effect[m].token.user == db.tokens[d].user
               && effect[m].token.purpose == db.tokens[d].purpose;
      IssueRetiresEarlier(db, effect, m, d);
    }
  }

  lemma LiveStart(cfg: Settings, db: Db, ev: Event, d: Digest)
    requires Inv(db) && Fresh(db, ev.req) && d !in db.tokens
    requires d in After(cfg, db, ev).tokens && After(cfg, db, ev).tokens[d].usedAt.None?
    ensures var token := After(cfg, db, ev).tokens[d];
            IssuesToken(cfg, db, ev, d, token) && token.expiresAt == ev.now + Ttl(cfg, token.purpose)
  {
    EffectOk(cfg, db, ev);
    var j := NewTokenWasAdded(db, Effect(cfg, db, ev), d);
    IssuedLifetime(cfg, db, ev, j);
  }

  lemma LiveSinceExtends(cfg: Settings, front: seq<Event>, last: Event, k: nat, d: Digest, token: EmailToken)
    requires LiveSince(cfg, front, k, d, token)
    requires !Issues(cfg, RunFrom(cfg, EMPTY_DB, front), last, token.user, token.purpose)
    ensures LiveSince(cfg, front + [last], k, d, token)
  {
    var events := front + [last];
    assert forall m :: 0 <= m <= |front| ==> events[..m] == front[..m];
    assert front[..|front|] == front;
  }

  lemma {:induction false} LiveTokenOrigin(cfg: Settings, events: seq<Event>, d: Digest) returns (k: nat)
    requires ValidRun(cfg, EMPTY_DB, events)
    requires d in RunFrom(cfg, EMPTY_DB, events).tokens && RunFrom(cfg, EMPTY_DB, events).tokens[d].usedAt.None?
    ensures LiveSince(cfg, events, k, d, RunFrom(cfg, EMPTY_DB, events).tokens[d])
    decreases |events|
  {
    var front, last := events[..|events| - 1], events[|events| - 1];
    var before := RunFrom(cfg, EMPTY_DB, front);
    assert events == front + [last];
    RunSnoc(cfg, EMPTY_DB, front, last);
    InvariantAlways(cfg, EMPTY_DB, front);
    if d in before.tokens {
      LiveStep(cfg, before, last, d);
      k := LiveTokenOrigin(cfg, front, d);
      LiveSinceExtends(cfg, front, last, k, d, before.tokens[d]);
    } else {
      LiveStart(cfg, before, last, d);
      k := |front|;
    }
  }

  lemma RunSnoc(cfg: Settings, db: Db, front: seq<Event>, last: Event)
    ensures RunFrom(cfg, db, front + [last]) == After(cfg, RunFrom(cfg, db, front), last)
    ensures ValidRun(cfg, db, front + [last]) <==> ValidRun(cfg, db, front) && Fresh(RunFrom(cfg, db, front), last.req)
  {
    FoldAppend(Effects(cfg), db, front, [last]);
    assert [last][1..] == [];
  }

  /** A raw token succeeds only at the endpoint of the purpose it was issued for, before its
      lifetime is over, and while it is the newest of its user and purpose. */
  lemma SuccessIsNewestAndTimely(cfg: Settings, events: seq<Event>, ev: Event, raw: string) returns (k: nat)
    requires ValidRun(cfg, EMPTY_DB, events)
    requires SucceedsWith(cfg, RunFrom(cfg, EMPTY_DB, events), ev, raw)
    ensures var db := RunFrom(cfg, EMPTY_DB, events);
            && Sha256(raw) in db.tokens
            && LiveSince(cfg, events, k, Sha256(raw), db.tokens[Sha256(raw)])
            && db.tokens[Sha256(raw)].purpose == (if ev.req.VerifyEmail? then VerifyPurpose else ResetPurpose)
            && ev.now < events[k].now + Ttl(cfg, db.tokens[Sha256(raw)].purpose)
  {
    k := LiveTokenOrigin(cfg, events, Sha256(raw));
  }

  // ----- Verified addresses -----

  /** When the address of a user was verified, if it was; nobody is verified before registering. */
  function VerifiedAt(db: Db, id: UserId): Option<int> {
    if id in db.users then db.users[id].verifiedAt else None
  }

  lemma {:induction false} UnmarkedStays(db: Db, commits: seq<Commit>, id: UserId)
    requires OkChain(db, commits)
    requires forall k :: 0 <= k < |commits| && commits[k].MarkVerified? ==> commits[k].id != id
    ensures VerifiedAt(ApplyAll(db, commits), id) == VerifiedAt(db, id)
  {
    if commits != [] { UnmarkedStays(db, commits[..|commits| - 1], id); }
  }

  /** The request presents, at its own endpoint, a live token issued to this user. */
  ghost predicate ProvesAddress(cfg: Settings, db: Db, ev: Event, id: UserId) {
    && (ev.req.VerifyEmail? || ev.req.ResetPassword?)
    && Usable(db, if ev.req.VerifyEmail? then VerifyPurpose else ResetPurpose, Sha256(ev.req.raw), ev.now)
    && db.tokens[Sha256(ev.req.raw)].user == id
  }

  /** Whom a plan marks as verified. */
  lemma PlanMarks(cfg: Settings, db: Db, now: int, req: Request, id: UserId)
    requires !ProvesAddress(cfg, db, Event(now, req, 0), id)
    ensures forall k :: 0 <= k < |Plan(cfg, db, now, req)| && Plan(cfg, db, now, req)[k].MarkVerified? ==>
              Plan(cfg, db, now, req)[k].id != id
  {
    match req
    case Register(_, _, _, _, _) =>
    case Login(_, _) =>
    case VerifyEmail(_) =>
    case ResendVerification(_, _) =>
    case ForgotPassword(_, _) =>
    case ResetPassword(_, _) =>
  }

  /** A request that verifies an address presents a live token issued to its user. */
  lemma VerifiedNeedsToken(cfg: Settings, db: Db, ev: Event, id: UserId)
    requires Inv(db) && Fresh(db, ev.req)
    requires VerifiedAt(After(cfg, db, ev), id) != VerifiedAt(db, id)
    ensures ProvesAddress(cfg, db, ev, id) && SucceedsWith(cfg, db, ev, ev.req.raw)
  {
    EffectOk(cfg, db, ev);
    if !ProvesAddress(cfg, db, ev, id) {
      PlanMarks(cfg, db, ev.now, ev.req, id);
      UnmarkedStays(db, Effect(cfg, db, ev), id);
    }
  }

  /** Whoever is verified after a run from the empty database has had a request in it that
      succeeded with a live token, and that token had been issued to this very user before. */
  lemma {:induction false} VerifiedByIssuedToken(cfg: Settings, events: seq<Event>, id: UserId) returns (j: nat, k: nat)
    requires ValidRun(cfg, EMPTY_DB, events)
    requires VerifiedAt(RunFrom(cfg, EMPTY_DB, events), id).Some?
    ensures j < k < |events|
    ensures var db := RunFrom(cfg, EMPTY_DB, events[..k]);
            && ProvesAddress(cfg, db, events[k], id) && SucceedsWith(cfg, db, events[k], events[k].req.raw)
            && LiveSince(cfg, events[..k], j, Sha256(events[k].req.raw), db.tokens[Sha256(events[k].req.raw)])
    decreases |events|
  {
    var front, last := events[..|events| - 1], events[|events| - 1];
    var before := RunFrom(cfg, EMPTY_DB, front);
    assert events == front + [last];
    RunSnoc(cfg, EMPTY_DB, front, last);
    if VerifiedAt(before, id).Some? {
      j, k := VerifiedByIssuedToken(cfg, front, id);
      assert events[..k] == front[..k];
    } else {
      InvariantAlways(cfg, EMPTY_DB, front);
      VerifiedNeedsToken(cfg, before, last, id);
      k := |front|;
      j := SuccessIsNewestAndTimely(cfg, front, last, last.req.raw);
    }
  }

  // ----- Resetting a password, and stopping half-way -----

  /** The commits of a reset before the password changes: only tokens are touched. */
  lemma ResetRetires(db: Db, now: int, digest: Digest)
    requires digest in db.tokens
    ensures var id := db.tokens[digest].user;
            var retire := RetirePlan(db, digest, id, now);
            && ApplyAll(db, retire).users == db.users
            && digest in ApplyAll(db, retire).tokens && ApplyAll(db, retire).tokens[digest].usedAt.Some?
            && Outstanding(ApplyAll(db, retire), id, ResetPurpose) == {}
            && (forall k :: 0 <= k < |retire| ==> retire[k].UseTokens?)
  {
    var id, consume := db.tokens[digest].user, UseTokens({digest}, now);
    var rest := InvalidatePlan(Apply(db, consume), id, ResetPurpose, now);
    ApplyOne(db, consume);
    ApplyAllAppend(db, [consume], rest);
    InvalidateOk(Apply(db, consume), id, ResetPurpose, now);
    TokenPersists(Apply(db, consume), rest, digest);
  }

  lemma {:induction false} NoChanges(commits: seq<Commit>, id: UserId)
    requires forall k :: 0 <= k < |commits| ==> !commits[k].ChangePassword?
    ensures Changes(commits, id) == 0
  {
    if commits != [] { NoChanges(commits[..|commits| - 1], id); }
  }

  /** Only a reset changes passwords. */
  lemma OthersChangeNothing(cfg: Settings, db: Db, ev: Event, id: UserId)
    requires !ev.req.ResetPassword?
    ensures Changes(Effect(cfg, db, ev), id) == 0
  {
    NoChanges(Effect(cfg, db, ev), id);
  }

  /** The user's password, audit date and generation moved on, nobody else changed, and no
      reset token of the user is left. */
  ghost predicate PasswordReset(db: Db, after: Db, digest: Digest, password: string, now: int)
    requires digest in db.tokens && db.tokens[digest].user in db.users
  {
    var id := db.tokens[digest].user;
    && after.users.Keys == db.users.Keys
    && after.users[id].tokenVersion == db.users[id].tokenVersion + 1
    && after.users[id].passwordHash == Bcrypt(password) && after.users[id].changedAt == now
    && after.users[id].email == db.users[id].email
    && (forall other :: other in db.users && other != id ==> after.users[other] == db.users[other])
    && digest in after.tokens && after.tokens[digest].usedAt.Some?
    && Outstanding(after, id, ResetPurpose) == {}
  }

  /** The state right after the password was changed. */
  lemma ResetChanged(db: Db, now: int, digest: Digest, password: string)
    requires digest in db.tokens && db.tokens[digest].user in db.users
    ensures var id := db.tokens[digest].user;
            var after := ApplyAll(db, RetirePlan(db, digest, id, now) + [ChangePassword(id, Bcrypt(password), now)]);
            && PasswordReset(db, after, digest, password, now)
            && after.users[id].verifiedAt == db.users[id].verifiedAt
  {
    var id := db.tokens[digest].user;
    var retire, change := RetirePlan(db, digest, id, now), ChangePassword(id, Bcrypt(password), now);
    ResetRetires(db, now, digest);
    ApplyAllAppend(db, retire, [change]);
    ApplyOne(ApplyAll(db, retire), change);
    ChangedAfter(db, ApplyAll(db, retire), now, digest, password);
  }

  lemma ChangedAfter(db: Db, retired: Db, now: int, digest: Digest, password: string)
    requires digest in db.tokens && db.tokens[digest].user in db.users && retired.users == db.users
    requires digest in retired.tokens && retired.tokens[digest].usedAt.Some?
    requires Outstanding(retired, db.tokens[digest].user, ResetPurpose) == {}
    ensures var id := db.tokens[digest].user;
            var after := Apply(retired, ChangePassword(id, Bcrypt(password), now));
            PasswordReset(db, after, digest, password, now) && after.users[id].verifiedAt == db.users[id].verifiedAt
  {
    var id := db.tokens[digest].user;
    assert Outstanding(Apply(retired, ChangePassword(id, Bcrypt(password), now)), id, ResetPurpose)
        == Outstanding(retired, id, ResetPurpose);
  }

  /** Marking the address verified is the last step, if there is anything to mark. */
  lemma VerifiedLast(db: Db, state: Db, id: UserId, now: int)
    requires id in db.users && id in state.users && state.users[id].verifiedAt == db.users[id].verifiedAt
    ensures var after := ApplyAll(state, VerifiedPlan(db, id, now));
            && after.users.Keys == state.users.Keys && after.tokens == state.tokens
            && after.users[id].verifiedAt.Some?
            && after.users[id] == state.users[id].(verifiedAt := after.users[id].verifiedAt)
            && (forall other :: other in state.users && other != id ==> after.users[other] == state.users[other])
  {
    ApplyOne(state, MarkVerified(id, now));
  }

  /** A reset that runs to its end. */
  lemma ResetFinished(db: Db, now: int, digest: Digest, password: string)
    requires digest in db.tokens && db.tokens[digest].user in db.users
    ensures var after := ApplyAll(db, ResetPlan(db, now, digest, password));
            PasswordReset(db, after, digest, password, now) && after.users[db.tokens[digest].user].verifiedAt.Some?
  {
    var id := db.tokens[digest].user;
    var changed := RetirePlan(db, digest, id, now) + [ChangePassword(id, Bcrypt(password), now)];
    ResetParts(db, now, digest, password);
    ResetChanged(db, now, digest, password);
    ApplyAllAppend(db, changed, VerifiedPlan(db, id, now));
    VerifiedLast(db, ApplyAll(db, changed), id, now);
    ResetOutlives(db, ApplyAll(db, changed), ApplyAll(db, changed + VerifiedPlan(db, id, now)), now, digest, password);
  }

  lemma ResetParts(db: Db, now: int, digest: Digest, password: string)
    requires digest in db.tokens
    ensures var id := db.tokens[digest].user;
            ResetPlan(db, now, digest, password)
            == RetirePlan(db, digest, id, now) + [ChangePassword(id, Bcrypt(password), now)] + VerifiedPlan(db, id, now)
  {
    var id := db.tokens[digest].user;
    Associate(RetirePlan(db, digest, id, now), [ChangePassword(id, Bcrypt(password), now)], VerifiedPlan(db, id, now));
  }

  /** Marking the address verified undoes nothing of the reset. */
  lemma ResetOutlives(db: Db, changed: Db, after: Db, now: int, digest: Digest, password: string)
    requires digest in db.tokens && db.tokens[digest].user in db.users
    requires PasswordReset(db, changed, digest, password, now)
    requires after.users.Keys == changed.users.Keys && after.tokens == changed.tokens
    requires var id := db.tokens[digest].user;
             after.users[id] == changed.users[id].(verifiedAt := after.users[id].verifiedAt)
    requires forall other :: other in changed.users && other != db.tokens[digest].user
                             ==> after.users[other] == changed.users[other]
    ensures PasswordReset(db, after, digest, password, now)
  {
    var id := db.tokens[digest].user;
    assert Outstanding(after, id, ResetPurpose) == Outstanding(changed, id, ResetPurpose);
  }

  /** How many commits of a reset come before the one that changes the password. */
  function RetireCount(db: Db, now: int, digest: Digest): nat
    requires digest in db.tokens
  {
    |RetirePlan(db, digest, db.tokens[digest].user, now)|
  }

  /** Where a reset is stopped decides what it did: up to the retiring commits no user changed;
      from the next one on the password is changed and every reset token of the user is used. */
  lemma ResetStopped(db: Db, now: int, digest: Digest, password: string, stop: nat)
    requires digest in db.tokens && db.tokens[digest].user in db.users
    ensures var plan := ResetPlan(db, now, digest, password);
            var after := ApplyAll(db, if stop < |plan| then plan[..stop] else plan);
            if stop <= RetireCount(db, now, digest) then after.users == db.users
            else PasswordReset(db, after, digest, password, now)
  {
    var id := db.tokens[digest].user;
    var retire, change := RetirePlan(db, digest, id, now), ChangePassword(id, Bcrypt(password), now);
    var plan := ResetPlan(db, now, digest, password);
    ResetParts(db, now, digest, password);
    if stop >= |plan| {
      ResetFinished(db, now, digest, password);
    } else if stop <= |retire| {
      assert plan[..stop] == retire[..stop];
      ResetRetires(db, now, digest);
      OnlyTokensUsed(db, retire[..stop]);
    } else {
      assert plan[..stop] == retire + [change];
      ResetChanged(db, now, digest, password);
    }
  }

  /** Because a user has at most one unused reset token, retiring the others never finds any:
      a reset makes its change in its second commit. */
  lemma NothingElseToRetire(db: Db, now: int, digest: Digest)
    requires Inv(db) && Usable(db, ResetPurpose, digest, now)
    ensures RetireCount(db, now, digest) == 1
  {
    var consumed := Apply(db, UseTokens({digest}, now));
    forall d | d in consumed.tokens && consumed.tokens[d].user == db.tokens[digest].user
               && consumed.tokens[d].purpose == ResetPurpose
      ensures consumed.tokens[d].usedAt.Some?
    {
      assert d in db.tokens;
    }
    assert Outstanding(consumed, db.tokens[digest].user, ResetPurpose) == {};
  }

  lemma {:induction false} OnlyTokensUsed(db: Db, commits: seq<Commit>)
    requires forall k :: 0 <= k < |commits| ==> commits[k].UseTokens?
    ensures ApplyAll(db, commits).users == db.users
  {
    if commits != [] { OnlyTokensUsed(db, commits[..|commits| - 1]); }
  }

  /** Wherever a request is stopped: if it changed a user's password, audit date or session
      generation at all, then it was a reset with a usable token of that user, the token and
      all others of its kind are used, and the generation moved on by exactly one. */
  lemma ChangeComesWithToken(cfg: Settings, db: Db, ev: Event, id: UserId)
    requires Inv(db) && Fresh(db, ev.req) && id in db.users
    ensures var after := After(cfg, db, ev);
            && id in after.users
            && (|| (&& after.users[id].passwordHash == db.users[id].passwordHash
                    && after.users[id].changedAt == db.users[id].changedAt
                    && after.users[id].tokenVersion == db.users[id].tokenVersion)
                || (&& ev.req.ResetPassword? && Usable(db, ResetPurpose, Sha256(ev.req.raw), ev.now)
                    && db.tokens[Sha256(ev.req.raw)].user == id
                    && SucceedsWith(cfg, db, ev, ev.req.raw)
                    && after.users[id].passwordHash == Bcrypt(ev.req.password)
                    && after.users[id].tokenVersion == db.users[id].tokenVersion + 1
                    && Sha256(ev.req.raw) in after.tokens && after.tokens[Sha256(ev.req.raw)].usedAt.Some?
                    && Outstanding(after, id, ResetPurpose) == {}))
  {
    EffectOk(cfg, db, ev);
    VersionsCount(db, Effect(cfg, db, ev), id);
    if ev.req.ResetPassword? {
      StoppedReset(cfg, db, ev, id);
    } else {
      OthersChangeNothing(cfg, db, ev, id);
    }
  }

  lemma StoppedReset(cfg: Settings, db: Db, ev: Event, id: UserId)
    requires ev.req.ResetPassword? && id in db.users
    ensures var after, digest := After(cfg, db, ev), Sha256(ev.req.raw);
            || after.users == db.users
            || (&& Usable(db, ResetPurpose, digest, ev.now) && db.tokens[digest].user in db.users
                && Effect(cfg, db, ev) != []
                && PasswordReset(db, after, digest, ev.req.password, ev.now))
  {
    if Plan(cfg, db, ev.now, ev.req) != [] {
      ResetStopped(db, ev.now, Sha256(ev.req.raw), ev.req.password, ev.stop);
    }
  }

  /** One raw token changes a password at most once, even when the reset was stopped half-way
      and is tried again, with whatever requests in between. */
  lemma OneTokenOneChange(cfg: Settings, db: Db, first: Event, others: seq<Event>, retry: Event, raw: string)
    requires Inv(db) && ValidRun(cfg, db, [first] + others)
    requires first.req.ResetPassword? && first.req.raw == raw
    requires retry.req.ResetPassword? && retry.req.raw == raw
    requires After(cfg, db, first).users != db.users
    ensures After(cfg, RunFrom(cfg, db, [first] + others), retry) == RunFrom(cfg, db, [first] + others)
  {
    SingleUse(cfg, db, first, others, retry, raw);
  }

  // ----- No more changes of password than tokens issued for them -----

  predicate StoresFor(c: Commit, id: UserId, purpose: Purpose) {
    c.AddToken? && c.token.user == id && c.token.purpose == purpose
  }

  /** How many tokens a list of commits stores for a user and purpose. */
  function Issued(commits: seq<Commit>, id: UserId, purpose: Purpose): nat {
    if commits == [] then 0
    else
      Issued(commits[..|commits| - 1], id, purpose) + if StoresFor(commits[|commits| - 1], id, purpose) then 1 else 0
  }

  lemma {:induction false} IssuedAppend(a: seq<Commit>, b: seq<Commit>, id: UserId, purpose: Purpose)
    ensures Issued(a + b, id, purpose) == Issued(a, id, purpose) + Issued(b, id, purpose)
  {
    if b == [] {
      assert a + b == a;
    } else {
      IssuedAppend(a, b[..|b| - 1], id, purpose);
      assert (a + b)[..|a + b| - 1] == a + b[..|b| - 1];
    }
  }

  /** Only storing a token adds to the outstanding ones. */
  lemma OutstandingAfter(db: Db, c: Commit, id: UserId, purpose: Purpose)
    ensures Outstanding(Apply(db, c), id, purpose)
         <= Outstanding(db, id, purpose) + if StoresFor(c, id, purpose) then {c.digest} else {}
  {
    forall d | d in Outstanding(Apply(db, c), id, purpose) && !(c.AddToken? && c.digest == d)
      ensures d in Outstanding(db, id, purpose)
    {
      assert d in db.tokens;
    }
  }

  lemma {:induction false} OutstandingGrowth(db: Db, commits: seq<Commit>, id: UserId, purpose: Purpose)
    ensures |Outstanding(ApplyAll(db, commits), id, purpose)|
         <= |Outstanding(db, id, purpose)| + Issued(commits, id, purpose)
  {
    if commits != [] {
      var front, last := commits[..|commits| - 1], commits[|commits| - 1];
      var before := Outstanding(ApplyAll(db, front), id, purpose);
      OutstandingGrowth(db, front, id, purpose);
      OutstandingAfter(ApplyAll(db, front), last, id, purpose);
      SmallerSet(Outstanding(ApplyAll(db, commits), id, purpose),
                 before + if StoresFor(last, id, purpose) then {last.digest} else {});
    }
  }

  lemma StrangerUnchanged(cfg: Settings, db: Db, ev: Event, id: UserId)
    requires Inv(db) && Fresh(db, ev.req) && id !in db.users
    ensures Changes(Effect(cfg, db, ev), id) == 0
  {
    if ev.req.ResetPassword? {
      EffectOk(cfg, db, ev);
      VersionsFromNothing(db, Effect(cfg, db, ev), id);
      ResetKeepsUserIds(cfg, db, ev);
    } else {
      OthersChangeNothing(cfg, db, ev, id);
    }
  }

  lemma ResetKeepsUserIds(cfg: Settings, db: Db, ev: Event)
    requires ev.req.ResetPassword?
    ensures After(cfg, db, ev).users.Keys == db.users.Keys
  {
    if Plan(cfg, db, ev.now, ev.req) != [] {
      ResetStopped(db, ev.now, Sha256(ev.req.raw), ev.req.password, ev.stop);
    }
  }

  /** A request that changes a password takes a token out of the outstanding ones. */
  lemma ChangeSpendsToken(cfg: Settings, db: Db, ev: Event, id: UserId)
    requires Inv(db) && Fresh(db, ev.req)
    ensures Changes(Effect(cfg, db, ev), id) + |Outstanding(After(cfg, db, ev), id, ResetPurpose)|
         <= |Outstanding(db, id, ResetPurpose)| + Issued(Effect(cfg, db, ev), id, ResetPurpose)
  {
    EffectOk(cfg, db, ev);
    OutstandingGrowth(db, Effect(cfg, db, ev), id, ResetPurpose);
    if id !in db.users {
      StrangerUnchanged(cfg, db, ev, id);
    } else {
      VersionsCount(db, Effect(cfg, db, ev), id);
      ChangeComesWithToken(cfg, db, ev, id);
      if Changes(Effect(cfg, db, ev), id) > 0 {
        SmallerSet({Sha256(ev.req.raw)}, Outstanding(db, id, ResetPurpose));
      }
    }
  }

  lemma {:induction false} ChangesWithinIssued(cfg: Settings, db: Db, events: seq<Event>, id: UserId)
    requires Inv(db) && ValidRun(cfg, db, events)
    ensures Changes(JournalOf(cfg, db, events), id)
         <= |Outstanding(db, id, ResetPurpose)| + Issued(JournalOf(cfg, db, events), id, ResetPurpose)
    decreases |events|
  {
    if events != [] {
      var effect, next := Effect(cfg, db, events[0]), After(cfg, db, events[0]);
      ChangeSpendsToken(cfg, db, events[0], id);
      EffectOk(cfg, db, events[0]);
      ChangesWithinIssued(cfg, next, events[1..], id);
      ChangesAppend(effect, JournalOf(cfg, next, events[1..]), id);
      IssuedAppend(effect, JournalOf(cfg, next, events[1..]), id, ResetPurpose);
    }
  }

  /** Over any run from the empty database, a user's password changes at most as often as
      reset tokens were issued to that user, so the session generation is bounded by them. */
  lemma ChangesNeedIssuedTokens(cfg: Settings, events: seq<Event>, id: UserId)
    requires ValidRun(cfg, EMPTY_DB, events)
    ensures var journal, after := JournalOf(cfg, EMPTY_DB, events), RunFrom(cfg, EMPTY_DB, events);
            && Changes(journal, id) <= Issued(journal, id, ResetPurpose)
            && (id in after.users ==> after.users[id].tokenVersion <= Issued(journal, id, ResetPurpose))
  {
    ChangesWithinIssued(cfg, EMPTY_DB, events, id);
    assert Outstanding(EMPTY_DB, id, ResetPurpose) == {};
    if id in RunFrom(cfg, EMPTY_DB, events).users { VersionIsNumberOfChanges(cfg, events, id); }
  }

  // ----- What a finished reset means for sign-in -----

  /** The generation of one user moved on; nobody else's did. */
  lemma RevokedByBump(cfg: Settings, db: Db, after: Db, id: UserId, other: UserId, mintedAt: int, t: int)
    requires id in db.users && other in db.users && after.users.Keys == db.users.Keys
    requires after.users[id].tokenVersion == db.users[id].tokenVersion + 1
    requires other != id ==> after.users[other] == db.users[other]
    ensures var earlier := Signed(TokenFor(cfg, db, other, mintedAt));
            CurrentUser(after, t, earlier) == (if other == id then None else CurrentUser(db, t, earlier))
  {}

  /** A finished reset ends every earlier session of its user and no one else's, and the token
      in its reply is accepted until it expires. */
  lemma ResetRevokesSessions(cfg: Settings, db: Db, now: int, raw: string, password: string,
                             other: UserId, mintedAt: int, t: int)
    requires Sha256(raw) in db.tokens && db.tokens[Sha256(raw)].user in db.users && other in db.users
    requires Usable(db, ResetPurpose, Sha256(raw), now)
    ensures var req := ResetPassword(raw, password);
            var id := db.tokens[Sha256(raw)].user;
            var after := ApplyAll(db, Plan(cfg, db, now, req));
            var reply := ReplyTo(cfg, db, now, req);
            var earlier := Signed(TokenFor(cfg, db, other, mintedAt));
            && reply.SignedIn? && reply.user == id
            && CurrentUser(after, t, Signed(reply.jwt)) == (if Decodes(reply.jwt, t) then Some(id) else None)
            && (now <= t ==> (Decodes(reply.jwt, t) <==> t < reply.jwt.exp * SECOND))
            && CurrentUser(after, t, earlier) == (if other == id then None else CurrentUser(db, t, earlier))
  {
    var plan := ResetPlan(db, now, Sha256(raw), password);
    ResetFinished(db, now, Sha256(raw), password);
    RevokedByBump(cfg, db, ApplyAll(db, plan), db.tokens[Sha256(raw)].user, other, mintedAt, t);
  }

  lemma FoundByEmail(db: Db, id: UserId)
    requires Inv(db) && id in db.users
    ensures FindUser(db, db.users[id].email) == Some(id)
  {}

  lemma LoginChecksHash(cfg: Settings, db: Db, t: int, email: string, attempt: string, id: UserId)
    requires Inv(db) && id in db.users && NormalizeEmail(email) == db.users[id].email
    ensures ReplyTo(cfg, db, t, Login(email, attempt)).SignedIn? <==> db.users[id].passwordHash == Bcrypt(attempt)
  {
    FoundByEmail(db, id);
  }

  lemma ResetKeepsInv(db: Db, now: int, digest: Digest, password: string)
    requires Inv(db) && digest in db.tokens
    ensures Inv(ApplyAll(db, ResetPlan(db, now, digest, password)))
  {
    ResetOk(db, now, digest, password);
    ChainKeepsInv(db, ResetPlan(db, now, digest, password));
  }

  /** After a finished reset exactly the new password signs the user in. */
  lemma PasswordTakesEffect(cfg: Settings, db: Db, after: Db, now: int, raw: string, password: string,
                            email: string, attempt: string, t: int)
    requires Inv(db) && Usable(db, ResetPurpose, Sha256(raw), now)
    requires after == ApplyAll(db, ResetPlan(db, now, Sha256(raw), password))
    requires NormalizeEmail(email) == db.users[db.tokens[Sha256(raw)].user].email
    ensures ReplyTo(cfg, after, t, Login(email, attempt)).SignedIn? <==> attempt == password
  {
    ResetKeepsInv(db, now, Sha256(raw), password);
    ResetFinished(db, now, Sha256(raw), password);
    LoginChecksHash(cfg, after, t, email, attempt, db.tokens[Sha256(raw)].user);
  }
}
