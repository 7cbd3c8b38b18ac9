/**
 Accounts, sessions and email tokens (app/routers/auth.py, app/security.py, app/crud.py).
 A request is planned as the list of its database commits; a crash leaves a prefix of
 that list applied. Times are microseconds.
*/
module Accounts {
  import opened Wrappers

  // ----- Data -----

  datatype UserId = Uuid(bits: nat)

  /** The SHA-256 of a raw email token, taken to be injective on issued tokens. */
  datatype Digest = Sha256(raw: string)

  /** A bcrypt hash; all that matters is which password verifies against it. */
  datatype PasswordHash = Bcrypt(password: string)

  datatype Purpose = VerifyPurpose | ResetPurpose

  datatype User = User(email: string, passwordHash: PasswordHash, displayName: Option<string>,
                       verifiedAt: Option<int>, changedAt: int, tokenVersion: nat)

  datatype EmailToken = EmailToken(user: UserId, purpose: Purpose, expiresAt: int, usedAt: Option<int>)

  datatype Db = Db(users: map<UserId, User>, tokens: map<Digest, EmailToken>)

  const EMPTY_DB := Db(map[], map[])

  datatype Settings = Settings(jwtExpireMinutes: int, verifyTtlMinutes: int, resetTtlMinutes: int)

  const SECOND := 1_000_000
  const MINUTE := 60 * SECOND

  // ----- Email addresses -----

  /** ASCII whitespace, as `str.strip` sees it. */
  predicate IsSpace(c: char) {
    c == ' ' || '\t' <= c <= '\r' || 28 as char <= c <= 31 as char
  }

  function LowerChar(c: char): char {
    if 'A' <= c <= 'Z' then (c as int + 32) as char else c
  }

  function StripLeft(s: string): string {
    if s != [] && IsSpace(s[0]) then StripLeft(s[1..]) else s
  }

  function StripRight(s: string): string {
    if s != [] && IsSpace(s[|s| - 1]) then StripRight(s[..|s| - 1]) else s
  }

  function Lower(s: string): string {
    seq(|s|, i requires 0 <= i < |s| => LowerChar(s[i]))
  }

  /** `email.strip().lower()` */
  function NormalizeEmail(email: string): string {
    Lower(StripRight(StripLeft(email)))
  }

  lemma {:induction false} StripLeftStarts(s: string)
    ensures StripLeft(s) == [] || !IsSpace(StripLeft(s)[0])
  {
    if s != [] && IsSpace(s[0]) { StripLeftStarts(s[1..]); }
  }

  lemma {:induction false} StripRightEnds(s: string)
    ensures var r := StripRight(s);
            && r <= s
            && (r == [] || !IsSpace(r[|r| - 1]))
  {
    if s != [] && IsSpace(s[|s| - 1]) { StripRightEnds(s[..|s| - 1]); }
  }

  /** Normal forms are normal, so storing and looking up agree however often it is applied. */
  lemma NormalizeIdempotent(email: string)
    ensures NormalizeEmail(NormalizeEmail(email)) == NormalizeEmail(email)
  {
    var left := StripLeft(email);
    var stripped := StripRight(left);
    StripLeftStarts(email);
    StripRightEnds(left);
    var e := Lower(stripped);
    if e != [] {
      assert stripped[0] == left[0];
      assert e[0] == LowerChar(stripped[0]) && e[|e| - 1] == LowerChar(stripped[|e| - 1]);
    }
    assert StripLeft(e) == e && StripRight(e) == e;
    assert Lower(e) == e;
  }

  lemma {:induction false} StripLeftLower(s: string)
    ensures StripLeft(Lower(s)) == Lower(StripLeft(s))
  {
    if s != [] {
      assert IsSpace(LowerChar(s[0])) <==> IsSpace(s[0]);
      assert Lower(s)[1..] == Lower(s[1..]);
      if IsSpace(s[0]) { StripLeftLower(s[1..]); }
    }
  }

  lemma {:induction false} StripRightLower(s: string)
    ensures StripRight(Lower(s)) == Lower(StripRight(s))
  {
    if s != [] {
      assert IsSpace(LowerChar(s[|s| - 1])) <==> IsSpace(s[|s| - 1]);
      assert Lower(s)[..|s| - 1] == Lower(s[..|s| - 1]);
      if IsSpace(s[|s| - 1]) { StripRightLower(s[..|s| - 1]); }
    }
  }

  /** Addresses that differ only in the case of letters belong to one account. */
  lemma NormalizeIgnoresCase(a: string, b: string)
    requires Lower(a) == Lower(b)
    ensures NormalizeEmail(a) == NormalizeEmail(b)
  {
    StripLeftLower(a);
    StripLeftLower(b);
    StripRightLower(StripLeft(a));
    StripRightLower(StripLeft(b));
  }

  // ----- Session tokens (sections 4.1.2, 4.1.4 and 4.1.6 of RFC 7519) -----

  /** The `sub` claim: absent or empty, not a UUID, or a user id. */
  datatype Subject = NoSubject | NotAUuid | UserSubject(id: UserId)

  /** A correctly signed token; `iat` and `exp` count whole seconds. Older builds wrote no `ver`. */
  datatype Jwt = Jwt(sub: Subject, ver: Option<int>, iat: Option<int>, exp: int)

  /** What a request carries: nothing, something that does not decode, or a signed token. */
  datatype Bearer = NoBearer | Undecodable | Signed(jwt: Jwt)

  function CreateAccessToken(cfg: Settings, id: UserId, version: int, now: int): Jwt {
    Jwt(UserSubject(id), Some(version), Some(now / SECOND), (now + cfg.jwtExpireMinutes * MINUTE) / SECOND)
  }

  /** A token that carries the user's current session generation. */
  function TokenFor(cfg: Settings, db: Db, id: UserId, now: int): Jwt
    requires id in db.users
  {
    CreateAccessToken(cfg, id, db.users[id].tokenVersion, now)
  }

  /** Decoding refuses a token issued in the future, and any token from the second `exp` on. */
  predicate Decodes(jwt: Jwt, now: int) {
    (jwt.iat.Some? ==> jwt.iat.value * SECOND <= now) && now < jwt.exp * SECOND
  }

  /** `get_current_user`: the user a request acts for, if it is accepted. */
  function CurrentUser(db: Db, now: int, bearer: Bearer): Option<UserId> {
    match bearer
    case NoBearer => None
    case Undecodable => None
    case Signed(jwt) =>
      if !Decodes(jwt, now) then None
      else
        match jwt.sub
        case NoSubject => None
        case NotAUuid => None
        case UserSubject(id) =>
          if id !in db.users then None
          else if jwt.ver.None? || jwt.ver.value != db.users[id].tokenVersion then None
          else Some(id)
  }

  // ----- Queries -----

  ghost function FindUser(db: Db, email: string): Option<UserId> {
    if id: UserId :| id in db.users && db.users[id].email == email then Some(id) else None
  }

  /** The unused tokens of a user for a purpose, expired or not. */
  function Outstanding(db: Db, id: UserId, purpose: Purpose): set<Digest> {
    set d | d in db.tokens && db.tokens[d].user == id && db.tokens[d].purpose == purpose && db.tokens[d].usedAt.None?
  }

  /** For this purpose, unused, and not expired. */
  predicate Usable(db: Db, purpose: Purpose, digest: Digest, now: int) {
    && digest in db.tokens && db.tokens[digest].purpose == purpose
    && db.tokens[digest].usedAt.None? && now < db.tokens[digest].expiresAt
  }

  // ----- Commits -----

  datatype Commit =
    | AddUser(id: UserId, user: User)
    | AddToken(digest: Digest, token: EmailToken)
    | UseTokens(digests: set<Digest>, at: int)
    | ChangePassword(id: UserId, hash: PasswordHash, at: int)
    | MarkVerified(id: UserId, at: int)

  function Apply(db: Db, c: Commit): Db {
    match c
    case AddUser(id, user) => db.(users := db.users[id := user])
    case AddToken(digest, token) => db.(tokens := db.tokens[digest := token])
    case UseTokens(digests, at) =>
      db.(tokens := map d | d in db.tokens :: if d in digests then db.tokens[d].(usedAt := Some(at)) else db.tokens[d])
    case ChangePassword(id, hash, at) =>
      if id !in db.users then db
      else
        var user := db.users[id];
        db.(users := db.users[id := user.(passwordHash := hash, changedAt := at, tokenVersion := user.tokenVersion + 1)])
    case MarkVerified(id, at) =>
      if id !in db.users then db else db.(users := db.users[id := db.users[id].(verifiedAt := Some(at))])
  }

  function ApplyAll(db: Db, commits: seq<Commit>): Db {
    if commits == [] then db
    else Apply(ApplyAll(db, commits[..|commits| - 1]), commits[|commits| - 1])
  }

  // ----- Requests -----

  /** `newId` and `newToken` are the random values drawn while the request is served. */
  datatype Request =
    | Register(email: string, password: string, displayName: Option<string>, newId: UserId, newToken: string)
    | Login(email: string, password: string)
    | VerifyEmail(raw: string)
    | ResendVerification(bearer: Bearer, newToken: string)
    | ForgotPassword(email: string, newToken: string)
    | ResetPassword(raw: string, password: string)

  datatype Reply =
    | SignedIn(jwt: Jwt, user: UserId)
    | Confirmed(user: UserId)
    | AlreadyVerified
    | MailSent
    | GenericAck
    | EmailTaken
    | BadCredentials
    | NotAuthenticated
    | InvalidToken

  function InvalidatePlan(db: Db, id: UserId, purpose: Purpose, now: int): seq<Commit> {
    if Outstanding(db, id, purpose) == {} then [] else [UseTokens(Outstanding(db, id, purpose), now)]
  }

  /** Retire what is outstanding, then store one new token. */
  function IssuePlan(db: Db, id: UserId, purpose: Purpose, newToken: string, now: int, ttlMinutes: int): seq<Commit> {
    InvalidatePlan(db, id, purpose, now)
    + [AddToken(Sha256(newToken), EmailToken(id, purpose, now + ttlMinutes * MINUTE, None))]
  }

  function VerifiedPlan(db: Db, id: UserId, now: int): seq<Commit> {
    if id in db.users && db.users[id].verifiedAt.None? then [MarkVerified(id, now)] else []
  }

  /** Store the account, then issue its first verification token. */
  function AccountPlan(cfg: Settings, db: Db, now: int, normal: string, password: string, name: Option<string>,
                       newId: UserId, newToken: string): seq<Commit>
  {
    var add := AddUser(newId, User(normal, Bcrypt(password), name, None, now, 0));
    [add] + IssuePlan(Apply(db, add), newId, VerifyPurpose, newToken, now, cfg.verifyTtlMinutes)
  }

  /** Consume the token, then retire the others of its kind. */
  function RetirePlan(db: Db, digest: Digest, id: UserId, now: int): seq<Commit> {
    [UseTokens({digest}, now)] + InvalidatePlan(Apply(db, UseTokens({digest}, now)), id, ResetPurpose, now)
  }

  /** Change the password, then mark the address verified if it was not. */
  function ChangePlan(db: Db, id: UserId, hash: PasswordHash, now: int): seq<Commit> {
    [ChangePassword(id, hash, now)] + VerifiedPlan(db, id, now)
  }

  /** The two halves of a reset, in this order. */
  function ResetPlan(db: Db, now: int, digest: Digest, password: string): seq<Commit>
    requires digest in db.tokens
  {
    var id := db.tokens[digest].user;
    RetirePlan(db, digest, id, now) + ChangePlan(db, id, Bcrypt(password), now)
  }

  /** The commits of a request that runs to its end. */
  ghost function Plan(cfg: Settings, db: Db, now: int, req: Request): seq<Commit> {
    match req
    case Register(email, password, name, newId, newToken) =>
      if FindUser(db, NormalizeEmail(email)).Some? then []
      else AccountPlan(cfg, db, now, NormalizeEmail(email), password, name, newId, newToken)
    case Login(_, _) => []
    case VerifyEmail(raw) =>
      if !Usable(db, VerifyPurpose, Sha256(raw), now) || db.tokens[Sha256(raw)].user !in db.users then []
      else [UseTokens({Sha256(raw)}, now)] + VerifiedPlan(db, db.tokens[Sha256(raw)].user, now)
    case ResendVerification(bearer, newToken) =>
      (match CurrentUser(db, now, bearer)
       case None => []
       case Some(id) =>
         if id in db.users && db.users[id].verifiedAt.Some? then []
         else IssuePlan(db, id, VerifyPurpose, newToken, now, cfg.verifyTtlMinutes))
    case ForgotPassword(email, newToken) =>
      (match FindUser(db, NormalizeEmail(email))
       case None => []
       case Some(id) => IssuePlan(db, id, ResetPurpose, newToken, now, cfg.resetTtlMinutes))
    case ResetPassword(raw, password) =>
      if !Usable(db, ResetPurpose, Sha256(raw), now) || db.tokens[Sha256(raw)].user !in db.users then []
      else ResetPlan(db, now, Sha256(raw), password)
  }

  ghost function SignIn(cfg: Settings, db: Db, id: UserId, now: int): Reply {
    if id in db.users then SignedIn(TokenFor(cfg, db, id, now), id) else NotAuthenticated
  }

  /** The answer of a request, given its commits; a session token is minted after the last one. */
  ghost function Answer(cfg: Settings, db: Db, now: int, req: Request, plan: seq<Commit>): Reply {
    match req
    case Register(email, _, _, newId, _) =>
      if FindUser(db, NormalizeEmail(email)).Some? then EmailTaken else SignIn(cfg, ApplyAll(db, plan), newId, now)
    case Login(email, password) =>
      (match FindUser(db, NormalizeEmail(email))
       case None => BadCredentials
       case Some(id) =>
         if id in db.users && db.users[id].passwordHash == Bcrypt(password) then SignIn(cfg, db, id, now)
         else BadCredentials)
    case VerifyEmail(raw) =>
      if plan == [] || Sha256(raw) !in db.tokens then InvalidToken else Confirmed(db.tokens[Sha256(raw)].user)
    case ResendVerification(bearer, _) =>
      if CurrentUser(db, now, bearer).None? then NotAuthenticated
      else if plan == [] then AlreadyVerified
      else MailSent
    case ForgotPassword(_, _) => GenericAck
    case ResetPassword(raw, _) =>
      if plan == [] || Sha256(raw) !in db.tokens then InvalidToken
      else SignIn(cfg, ApplyAll(db, plan), db.tokens[Sha256(raw)].user, now)
  }

  /** The answer of a request that runs to its end. */
  ghost function ReplyTo(cfg: Settings, db: Db, now: int, req: Request): Reply {
    Answer(cfg, db, now, req, Plan(cfg, db, now, req))
  }

  // ----- Invariant -----

  ghost predicate Inv(db: Db) {
    && (forall id :: id in db.users ==> NormalizeEmail(db.users[id].email) == db.users[id].email)
    && (forall i, j :: i in db.users && j in db.users && db.users[i].email == db.users[j].email ==> i == j)
    && (forall d :: d in db.tokens ==> db.tokens[d].user in db.users)
    && OneOutstanding(db)
  }

  /** At most one unused token per user and purpose. */
  ghost predicate OneOutstanding(db: Db) {
    forall d, e :: && d in db.tokens && e in db.tokens
                   && db.tokens[d].usedAt.None? && db.tokens[e].usedAt.None?
                   && db.tokens[d].user == db.tokens[e].user && db.tokens[d].purpose == db.tokens[e].purpose
                   ==> d == e
  }

  /** The random values a request draws have not been drawn before. */
  ghost predicate Fresh(db: Db, req: Request) {
    match req
    case Register(_, _, _, newId, newToken) => newId !in db.users && Sha256(newToken) !in db.tokens
    case ResendVerification(_, newToken) => Sha256(newToken) !in db.tokens
    case ForgotPassword(_, newToken) => Sha256(newToken) !in db.tokens
    case _ => true
  }

  // ----- Runs with crashes -----

  /** A request at a time, stopped after `stop` of its commits (or run to its end). */
  datatype Event = Event(now: int, req: Request, stop: nat)

  ghost function Effect(cfg: Settings, db: Db, ev: Event): seq<Commit> {
    var plan := Plan(cfg, db, ev.now, ev.req);
    if ev.stop < |plan| then plan[..ev.stop] else plan
  }

  ghost function After(cfg: Settings, db: Db, ev: Event): Db {
    ApplyAll(db, Effect(cfg, db, ev))
  }

  /** The commits of each request, as a function of the state it meets. */
  ghost function Effects(cfg: Settings): (Db, Event) -> seq<Commit> {
    (db, ev) => Effect(cfg, db, ev)
  }

  ghost function FoldRun(effects: (Db, Event) -> seq<Commit>, db: Db, events: seq<Event>): Db
    decreases |events|
  {
    if events == [] then db else FoldRun(effects, ApplyAll(db, effects(db, events[0])), events[1..])
  }

  ghost function FoldJournal(effects: (Db, Event) -> seq<Commit>, db: Db, events: seq<Event>): seq<Commit>
    decreases |events|
  {
    if events == [] then []
    else effects(db, events[0]) + FoldJournal(effects, ApplyAll(db, effects(db, events[0])), events[1..])
  }

  ghost predicate FoldFresh(effects: (Db, Event) -> seq<Commit>, db: Db, events: seq<Event>)
    decreases |events|
  {
    events != [] ==>
      Fresh(db, events[0].req) && FoldFresh(effects, ApplyAll(db, effects(db, events[0])), events[1..])
  }

  /** The state a run of requests leads to. */
  ghost function RunFrom(cfg: Settings, db: Db, events: seq<Event>): Db {
    FoldRun(Effects(cfg), db, events)
  }

  /** All commits of a run, in order. */
  ghost function JournalOf(cfg: Settings, db: Db, events: seq<Event>): seq<Commit> {
    FoldJournal(Effects(cfg), db, events)
  }

  /** Every request of the run draws new random values. */
  ghost predicate ValidRun(cfg: Settings, db: Db, events: seq<Event>) {
    FoldFresh(Effects(cfg), db, events)
  }

  /** How often a user's password changed in a list of commits. */
  function Changes(commits: seq<Commit>, id: UserId): nat {
    if commits == [] then 0
    else
      var last := commits[|commits| - 1];
      Changes(commits[..|commits| - 1], id) + if last.ChangePassword? && last.id == id then 1 else 0
  }
}
