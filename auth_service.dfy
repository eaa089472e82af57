/** `AuthService`: registration by e-mail or phone, credential checks, and the session ledger
    behind refresh-token rotation and logout.

    Foreign code enters as parameters: `hash` is bcrypt's digest (`compare(p, d)` holds exactly
    when `hash(p) == d`), `normalize` is libphonenumber's E.164 normalisation (`None` where it
    throws 'Invalid phone'), and random tokens, the clock and environment variables are
    arguments. */
module AuthService {
  import opened Wrappers
  import opened Seqs
  import opened Text
  import opened JsNumbers
  import opened Store
  import opened UsersService

  const BadCredentials := Unauthorized("Invalid credentials")
  const InvalidPhone := Internal("Invalid phone")
  /** The unique constraint on `(provider, providerUserId)` failing inside a transaction. */
  const AccountTaken := Internal("Unique constraint failed on the fields: (provider,providerUserId)")
  /** `addDays(NaN)` is an invalid date, which the ORM refuses to store. */
  const InvalidExpiry := Internal("Invalid value for argument expiresAt")

  /** Milliseconds in a day. */
  const DayMs := 86400000

  /** `!s` on an optional string: absent and "" are falsy. */
  predicate Falsy(s: Option<string>) { s.None? || s == Some("") }

  // ---------- lookups by unique key ----------

  /** `user.findUnique` on a unique optional column, read from each row by `column`. */
  function UserBy(users: seq<User>, column: User -> Option<string>, key: string): (r: Option<nat>)
    ensures r.Some? ==> r.value < |users| && column(users[r.value]) == Some(key)
    ensures r.None? ==> forall j :: 0 <= j < |users| ==> column(users[j]) != Some(key)
  {
    FirstIndex(users, (u: User) => column(u) == Some(key))
  }

  /** `user.findUnique({ where: { email } })`. */
  function UserByEmail(users: seq<User>, email: string): (r: Option<nat>)
    ensures r.Some? ==> r.value < |users| && users[r.value].email == Some(email)
    ensures r.None? ==> forall j :: 0 <= j < |users| ==> users[j].email != Some(email)
  {
    UserBy(users, (u: User) => u.email, email)
  }

  /** `user.findUnique({ where: { phone } })`. */
  function UserByPhone(users: seq<User>, phone: string): (r: Option<nat>)
    ensures r.Some? ==> r.value < |users| && users[r.value].phone == Some(phone)
    ensures r.None? ==> forall j :: 0 <= j < |users| ==> users[j].phone != Some(phone)
  {
    UserBy(users, (u: User) => u.phone, phone)
  }

  /** `account.findUnique({ where: { provider_providerUserId } })`. */
  function AccountByKey(accounts: seq<Account>, provider: Provider, providerUserId: string): (r: Option<nat>)
    ensures r.Some? ==> r.value < |accounts| && accounts[r.value].provider == provider
                        && accounts[r.value].providerUserId == providerUserId
    ensures r.None? ==> forall j :: 0 <= j < |accounts| ==>
                          !(accounts[j].provider == provider && accounts[j].providerUserId == providerUserId)
  {
    FirstIndex(accounts, (a: Account) => a.provider == provider && a.providerUserId == providerUserId)
  }

  /** Adding a user whose id is the counter's and whose e-mail and phone are unused keeps the
      user table's invariant. */
  lemma UsersOkAppend(users: seq<User>, next: Id, u: User)
    requires UsersOk(users, next) && u.id == next
    requires u.email.Some? ==> UserByEmail(users, u.email.value).None?
    requires u.phone.Some? ==> UserByPhone(users, u.phone.value).None?
    ensures UsersOk(users + [u], next + 1)
  {
    IdsBelowAppend(users, UserId, next, u);
  }

  /** Adding an account of an existing user under an unused key keeps the account table's
      invariant. */
  lemma AccountsOkAppend(accounts: seq<Account>, nextUser: Id, a: Account)
    requires AccountsOk(accounts, nextUser) && a.userId < nextUser
    requires AccountByKey(accounts, a.provider, a.providerUserId).None?
    ensures AccountsOk(accounts + [a], nextUser)
  {
  }

  /** Writes the user and account tables of a committed registration. */
  method SaveIdentities(db: Database, users: seq<User>, accounts: seq<Account>, nextUser: Id)
    requires db.Valid() && UsersOk(users, nextUser) && AccountsOk(accounts, nextUser)
    modifies db`users, db`accounts, db`nextUserId
    ensures db.Valid()
    ensures db.users == users && db.accounts == accounts && db.nextUserId == nextUser
  {
    db.users, db.accounts, db.nextUserId := users, accounts, nextUser;
  }

  // ---------- registration ----------

  function EmailUser(id: Id, lower: string, fullName: string): User {
    User(id, Some(lower), None, fullName, USER)
  }

  function EmailAccount(userId: Id, lower: string, digest: string): Account {
    Account(userId, EMAIL, lower, Some(lower), None, Some(digest))
  }

  /** `registerEmail`. The duplicate check looks at the user table only; an EMAIL account that
      already holds the address makes the account insert fail, and the transaction takes the
      new user row back. */
  method RegisterEmail(db: Database, hash: string -> string, email: string, password: string, fullName: string)
    returns (r: Result<User>)
    requires db.Valid()
    modifies db`users, db`accounts, db`nextUserId
    ensures db.Valid()
    ensures r.Err? ==> db.users == old(db.users) && db.accounts == old(db.accounts) && db.nextUserId == old(db.nextUserId)
    ensures UserByEmail(old(db.users), ToLower(email)).Some? ==> r == Err(BadRequest("Email already registered"))
    ensures UserByEmail(old(db.users), ToLower(email)).None? && AccountByKey(old(db.accounts), EMAIL, ToLower(email)).Some?
      ==> r == Err(AccountTaken)
    ensures UserByEmail(old(db.users), ToLower(email)).None? && AccountByKey(old(db.accounts), EMAIL, ToLower(email)).None? ==>
      r == Ok(EmailUser(old(db.nextUserId), ToLower(email), fullName))
      && db.users == old(db.users) + [r.value]
      && db.accounts == old(db.accounts) + [EmailAccount(r.value.id, ToLower(email), hash(password))]
      && db.nextUserId == old(db.nextUserId) + 1
  {
    var lower := ToLower(email);
    if UserByEmail(db.users, lower).Some? {
      return Err(BadRequest("Email already registered"));
    }
    var user := EmailUser(db.nextUserId, lower, fullName);
    var account := EmailAccount(user.id, lower, hash(password));
    if AccountByKey(db.accounts, EMAIL, lower).Some? {
      return Err(AccountTaken);
    }
    UsersOkAppend(db.users, db.nextUserId, user);
    AccountsOkAppend(db.accounts, db.nextUserId + 1, account);
    SaveIdentities(db, db.users + [user], db.accounts + [account], db.nextUserId + 1);
    r := Ok(user);
  }

  function PhoneUser(id: Id, phone: string, fullName: string): User {
    User(id, None, Some(phone), fullName, USER)
  }

  function PhoneAccount(userId: Id, phone: string, digest: string): Account {
    Account(userId, PHONE, phone, None, Some(phone), Some(digest))
  }

  /** `findUnique({ where: { phone } }) ?? create({ data: { phone, fullName } })` inside the
      registration transaction: the user table, its counter and the index of the user holding
      the phone. */
  function PhoneOwner(users: seq<User>, next: Id, n: string, fullName: string): (r: (seq<User>, Id, nat))
    requires UsersOk(users, next)
    ensures UsersOk(r.0, r.1) && r.2 < |r.0| && r.0[r.2].phone == Some(n) && r.0[r.2].id < r.1
    ensures UserByPhone(users, n).Some? ==> r == (users, next, UserByPhone(users, n).value)
    ensures UserByPhone(users, n).None? ==> r == (users + [PhoneUser(next, n, fullName)], next + 1, |users|)
  {
    match UserByPhone(users, n)
    case Some(i) => (users, next, i)
    case None =>
      UsersOkAppend(users, next, PhoneUser(next, n, fullName));
      (users + [PhoneUser(next, n, fullName)], next + 1, |users|)
  }

  /** `if (!user.phone) user.update({ phone })`: the user already holds the number, so the
      table comes back as it was. */
  function MirrorPhone(users: seq<User>, ui: nat, n: string): (r: seq<User>)
    requires ui < |users| && users[ui].phone == Some(n)
    ensures r == users
  {
    if Falsy(users[ui].phone) then users[ui := users[ui].(phone := Some(n))] else users
  }

  /** `registerPhone`. The user found by phone, or the one created with it, already carries the
      normalized number, so the "mirror phone" update writes the value the row already holds. */
  method RegisterPhone(db: Database, hash: string -> string, normalize: string -> Option<string>,
                       phone: string, password: string, fullName: string)
    returns (r: Result<User>)
    requires db.Valid()
    modifies db`users, db`accounts, db`nextUserId
    ensures db.Valid()
    ensures r.Err? ==> db.users == old(db.users) && db.accounts == old(db.accounts) && db.nextUserId == old(db.nextUserId)
    ensures normalize(phone).None? ==> r == Err(InvalidPhone)
    ensures normalize(phone).Some? && AccountByKey(old(db.accounts), PHONE, normalize(phone).value).Some? ==>
      r == Err(BadRequest("Phone already registered"))
    ensures normalize(phone).Some? && AccountByKey(old(db.accounts), PHONE, normalize(phone).value).None? ==>
      var n := normalize(phone).value;
      r.Ok? && r.value.phone == Some(n)
      && db.accounts == old(db.accounts) + [PhoneAccount(r.value.id, n, hash(password))]
      && (UserByPhone(old(db.users), n).Some? ==>
            r.value == old(db.users)[UserByPhone(old(db.users), n).value]
            && db.users == old(db.users) && db.nextUserId == old(db.nextUserId))
      && (UserByPhone(old(db.users), n).None? ==>
            r.value == PhoneUser(old(db.nextUserId), n, fullName)
            && db.users == old(db.users) + [r.value] && db.nextUserId == old(db.nextUserId) + 1)
  {
    if normalize(phone).None? {
      return Err(InvalidPhone);
    }
    var n := normalize(phone).value;
    if AccountByKey(db.accounts, PHONE, n).Some? {
      return Err(BadRequest("Phone already registered"));
    }
    var (users, nextUser, ui) := PhoneOwner(db.users, db.nextUserId, n, fullName);
    var user := users[ui];
    var account := PhoneAccount(user.id, n, hash(password));
    AccountsOkAppend(db.accounts, nextUser, account);
    users := MirrorPhone(users, ui, n);
    SaveIdentities(db, users, db.accounts + [account], nextUser);
    r := Ok(user);
  }

  // ---------- credential validation ----------

  /** `/\S+@\S+\.\S+/` matches with its '@' at `at` and its '.' at `dot`. */
  predicate EmailAt(v: string, at: int, dot: int) {
    1 <= at && at + 1 < dot && dot + 1 < |v| && v[at] == '@' && v[dot] == '.'
    && !IsSpace(v[at - 1]) && (forall k :: at < k < dot ==> !IsSpace(v[k])) && !IsSpace(v[dot + 1])
  }

  /** `isEmail`: some non-blank text, '@', non-blank text, '.', non-blank text. */
  predicate IsEmail(v: string): (b: bool)
    ensures b ==> |v| >= 5 && '@' in v && '.' in v
  {
    exists at, dot :: 0 <= at < |v| && 0 <= dot < |v| && EmailAt(v, at, dot)
  }

  /** The class `[0-9+\s\-()]`. */
  predicate PhoneChar(c: char) { IsDigit(c) || c == '+' || IsSpace(c) || c == '-' || c == '(' || c == ')' }

  predicate PhoneRunAt(v: string, i: int) {
    0 <= i && i + 6 <= |v| && forall k :: i <= k < i + 6 ==> PhoneChar(v[k])
  }

  /** `isMaybePhone`: six characters of the class in a row. */
  predicate IsMaybePhone(v: string): (b: bool)
    ensures b ==> |v| >= 6
  {
    exists i :: 0 <= i < |v| && PhoneRunAt(v, i)
  }

  /** The identifier `validateUser` looks up: lower-cased if e-mail shaped, else normalized if
      phone shaped, else verbatim. */
  function LoginId(normalize: string -> Option<string>, identifier: string): (r: Result<string>)
    ensures IsEmail(identifier) ==> r == Ok(ToLower(identifier))
    ensures r.Err? <==> !IsEmail(identifier) && IsMaybePhone(identifier) && normalize(identifier).None?
    ensures r.Err? ==> r.error == InvalidPhone
    ensures !IsEmail(identifier) && IsMaybePhone(identifier) && normalize(identifier).Some? ==> r == Ok(normalize(identifier).value)
    ensures !IsEmail(identifier) && !IsMaybePhone(identifier) ==> r == Ok(identifier)
  {
    if IsEmail(identifier) then Ok(ToLower(identifier))
    else if IsMaybePhone(identifier) then
      (match normalize(identifier) case None => Err(InvalidPhone) case Some(n) => Ok(n))
    else Ok(identifier)
  }

  /** Lower-casing keeps an e-mail shape, so the looked-up identifier of an e-mail is already
      normal: normalising it again changes nothing. */
  lemma LoginIdOfEmailIsStable(normalize: string -> Option<string>, identifier: string)
    requires IsEmail(identifier)
    ensures LoginId(normalize, identifier) == Ok(ToLower(identifier))
    ensures IsEmail(ToLower(identifier))
    ensures LoginId(normalize, ToLower(identifier)) == LoginId(normalize, identifier)
  {
    var at, dot :| 0 <= at < |identifier| && 0 <= dot < |identifier| && EmailAt(identifier, at, dot);
    var lower := ToLower(identifier);
    assert lower[at] == '@' && lower[dot] == '.';
    assert !IsSpace(lower[at - 1]) && !IsSpace(lower[dot + 1]);
    assert forall k :: at < k < dot ==> !IsSpace(lower[k]);
    assert EmailAt(lower, at, dot);
    assert ToLower(lower) == lower;
  }

  /** The test of `accounts.find`: the account is named by the looked-up identifier. */
  function Named(id: string): Account -> bool {
    (a: Account) => a.providerUserId == id
  }

  /** `validateUser(identifier, password)`: the user found for the looked-up identifier, whose
      own account named by that identifier holds a non-empty digest of `password`. Every failure
      after the normalisation is the same 'Invalid credentials'. */
  function ValidateUser(users: seq<User>, accounts: seq<Account>, hash: string -> string,
                        normalize: string -> Option<string>, identifier: string, password: string)
    : (r: Result<UserWithAccounts>)
    ensures r.Err? ==> r.error == BadCredentials || r.error == InvalidPhone
    ensures r.Err? && r.error == InvalidPhone ==> LoginId(normalize, identifier) == Err(InvalidPhone)
    ensures r.Ok? ==>
      LoginId(normalize, identifier).Ok?
      && FindByIdentifier(users, accounts, LoginId(normalize, identifier).value) == Some(r.value)
    ensures LoginId(normalize, identifier).Ok? && FindByIdentifier(users, accounts, LoginId(normalize, identifier).value).None?
      ==> r == Err(BadCredentials)
    ensures LoginId(normalize, identifier).Ok? && FindByIdentifier(users, accounts, LoginId(normalize, identifier).value).Some? ==>
      var id := LoginId(normalize, identifier).value;
      var found := FindByIdentifier(users, accounts, id).value;
      var first := FirstIndex(found.accounts, Named(id));
      (first.None? ==> r == Err(BadCredentials))
      && (first.Some? ==>
            (r.Ok? <==> found.accounts[first.value].passwordHash == Some(hash(password)) && hash(password) != ""))
  {
    match LoginId(normalize, identifier)
    case Err(e) => Err(e)
    case Ok(id) =>
      match FindByIdentifier(users, accounts, id)
      case None => Err(BadCredentials)
      case Some(found) =>
        match FirstIndex(found.accounts, Named(id))
        case None => Err(BadCredentials)
        case Some(j) =>
          var digest := found.accounts[j].passwordHash;
          if Falsy(digest) || hash(password) != digest.value then Err(BadCredentials) else Ok(found)
  }

  /** Registering an e-mail and then validating it: the right password is accepted and returns
      the new user, any password with another digest gets 'Invalid credentials'. It needs no
      other user to claim the lower-cased address as phone or account name first. */
  lemma RegisteredEmailValidates(users: seq<User>, accounts: seq<Account>, next: Id, hash: string -> string,
                                 normalize: string -> Option<string>, email: string, password: string,
                                 other: string, fullName: string)
    requires UsersOk(users, next) && AccountsOk(accounts, next) && IsEmail(email) && hash(password) != ""
    requires forall i :: 0 <= i < |users| ==> !MatchesIdentifier(accounts, ToLower(email), users[i])
    ensures
      var u := EmailUser(next, ToLower(email), fullName);
      var accounts' := accounts + [EmailAccount(next, ToLower(email), hash(password))];
      ValidateUser(users + [u], accounts', hash, normalize, email, password)
        == Ok(UserWithAccounts(u, [EmailAccount(next, ToLower(email), hash(password))]))
      && (hash(other) != hash(password) ==>
            ValidateUser(users + [u], accounts', hash, normalize, email, other) == Err(BadCredentials))
  {
    var lower := ToLower(email);
    var u := EmailUser(next, lower, fullName);
    var acc := EmailAccount(next, lower, hash(password));
    LoginIdOfEmailIsStable(normalize, email);
    assert ToLower(lower) == lower;
    NewUserIsFound(users, accounts, next, lower, fullName, acc);
    ValidateSoleAccount(users + [u], accounts + [acc], hash, normalize, email, lower, UserWithAccounts(u, [acc]), password);
    ValidateSoleAccount(users + [u], accounts + [acc], hash, normalize, email, lower, UserWithAccounts(u, [acc]), other);
  }

  /** A found user with one account under the login id and a non-empty digest: the password
      decides alone. */
  lemma ValidateSoleAccount(users: seq<User>, accounts: seq<Account>, hash: string -> string,
                            normalize: string -> Option<string>, identifier: string, id: string,
                            found: UserWithAccounts, password: string)
    requires LoginId(normalize, identifier) == Ok(id)
    requires FindByIdentifier(users, accounts, id) == Some(found)
    requires |found.accounts| == 1 && found.accounts[0].providerUserId == id
    requires found.accounts[0].passwordHash.Some? && found.accounts[0].passwordHash.value != ""
    ensures ValidateUser(users, accounts, hash, normalize, identifier, password)
      == if hash(password) == found.accounts[0].passwordHash.value then Ok(found) else Err(BadCredentials)
  {
    assert FirstIndex(found.accounts, Named(id)) == Some(0);
  }

  /** The user just added under `lower` is the one `findByIdentifier(lower)` returns, with the
      one account just added, when no earlier user matches `lower`. */
  lemma NewUserIsFound(users: seq<User>, accounts: seq<Account>, next: Id, lower: string, fullName: string, acc: Account)
    requires UsersOk(users, next) && AccountsOk(accounts, next) && acc.userId == next && ToLower(lower) == lower
    requires forall i :: 0 <= i < |users| ==> !MatchesIdentifier(accounts, lower, users[i])
    ensures FindByIdentifier(users + [EmailUser(next, lower, fullName)], accounts + [acc], lower)
         == Some(UserWithAccounts(EmailUser(next, lower, fullName), [acc]))
  {
    var u := EmailUser(next, lower, fullName);
    var users', accounts' := users + [u], accounts + [acc];
    forall i | 0 <= i < |users|
      ensures !MatchesIdentifier(accounts', lower, users'[i])
    {
      assert users'[i] == users[i];
      assert UserId(users[i]) < next;
    }
    assert MatchesIdentifier(accounts', lower, users'[|users|]);
    var found := FirstIndex(users', (x: User) => MatchesIdentifier(accounts', lower, x));
    assert found == Some(|users|);
    assert accounts'[..|accounts|] == accounts;
    assert AccountsOf(accounts, next) == [];
    assert AccountsOf(accounts', next) == [acc];
  }

  // ---------- tokens and sessions ----------

  /** The access token's payload and lifetime; `jwt.sign` itself is foreign. */
  datatype AccessClaims = AccessClaims(sub: Id, role: Role, expiresIn: string)

  /** `signAccess(user)` with `ACCESS_TOKEN_TTL` given as `ttl`: unset or empty means "15m". */
  function SignAccess(u: User, ttl: Option<string>): (r: AccessClaims)
    ensures r.sub == u.id && r.role == u.role
    ensures Falsy(ttl) ==> r.expiresIn == "15m"
    ensures !Falsy(ttl) ==> r.expiresIn == ttl.value
  {
    AccessClaims(u.id, u.role, if Falsy(ttl) then "15m" else ttl.value)
  }

  lemma ParseSeven()
    ensures ParseInt("7") == Some(7)
  {
    assert "7" + [] == "7";
    ParseIntReadsDigitPrefix("7", []);
  }

  /** `addDays(parseInt(REFRESH_TOKEN_TTL_DAYS ?? '7', 10))` from the instant `now` (in
      milliseconds): `None` when the day count is NaN, which includes a variable set to "". */
  function RefreshExpiry(now: int, ttlDays: Option<string>): (r: Option<int>)
    ensures ttlDays.None? ==> r == Some(now + 7 * DayMs)
    ensures r.Some? <==> ParseInt(ttlDays.GetOr("7")).Some?
    ensures r.Some? ==> r.value == now + ParseInt(ttlDays.GetOr("7")).value * DayMs
  {
    ParseSeven();
    match ParseInt(ttlDays.GetOr("7"))
    case None => None
    case Some(d) => Some(now + d * DayMs)
  }

  /** What `createSession` hands back: the raw token, which is never stored. */
  datatype Grant = Grant(refreshToken: string, sessionId: Id, expiresAt: int)

  /** What `login` and `refresh` return. */
  datatype Tokens = Tokens(access: AccessClaims, refreshToken: string, sessionId: Id, refreshExpiresAt: int)

  /** No stored session holds the digest `d`: the 32 random bytes of a new token do not collide. */
  predicate FreshDigest(sessions: seq<Session>, d: string) {
    forall i :: 0 <= i < |sessions| ==> sessions[i].token != d
  }

  /** Adding a session whose id is the counter's and whose digest is fresh keeps the session
      table's invariant. */
  lemma SessionsOkAppend(sessions: seq<Session>, next: Id, s: Session)
    requires SessionsOk(sessions, next) && s.id == next && FreshDigest(sessions, s.token)
    ensures SessionsOk(sessions + [s], next + 1)
  {
    IdsBelowAppend(sessions, SessionId, next, s);
  }

  /** Writes the session table. */
  method SaveSessions(db: Database, sessions: seq<Session>, next: Id)
    requires db.Valid() && SessionsOk(sessions, next)
    modifies db`sessions, db`nextSessionId
    ensures db.Valid()
    ensures db.sessions == sessions && db.nextSessionId == next
  {
    db.sessions, db.nextSessionId := sessions, next;
  }

  /** `createSession(userId, ua, ip)` with the random token `raw`: the session row stores
      `hash(raw)` and never `raw`, which only the caller receives. */
  method CreateSession(db: Database, hash: string -> string, userId: Id, ua: Option<string>, ip: Option<string>,
                       raw: string, now: int, ttlDays: Option<string>)
    returns (r: Result<Grant>)
    requires db.Valid() && FreshDigest(db.sessions, hash(raw))
    modifies db`sessions, db`nextSessionId
    ensures db.Valid()
    ensures RefreshExpiry(now, ttlDays).None? ==>
      r == Err(InvalidExpiry) && db.sessions == old(db.sessions) && db.nextSessionId == old(db.nextSessionId)
    ensures RefreshExpiry(now, ttlDays).Some? ==>
      var expiresAt := RefreshExpiry(now, ttlDays).value;
      r == Ok(Grant(raw, old(db.nextSessionId), expiresAt))
      && db.sessions == old(db.sessions) + [Session(old(db.nextSessionId), userId, hash(raw), ua, ip, expiresAt)]
      && db.nextSessionId == old(db.nextSessionId) + 1
  {
    var expiresAt := RefreshExpiry(now, ttlDays);
    if expiresAt.None? {
      return Err(InvalidExpiry);
    }
    var s := Session(db.nextSessionId, userId, hash(raw), ua, ip, expiresAt.value);
    SessionsOkAppend(db.sessions, db.nextSessionId, s);
    SaveSessions(db, db.sessions + [s], db.nextSessionId + 1);
    r := Ok(Grant(raw, s.id, s.expiresAt));
  }

  /** `login(user, ua, ip)`: an access payload and a new session. */
  method Login(db: Database, hash: string -> string, user: User, ua: Option<string>, ip: Option<string>,
               raw: string, now: int, accessTtl: Option<string>, ttlDays: Option<string>)
    returns (r: Result<Tokens>)
    requires db.Valid() && FreshDigest(db.sessions, hash(raw))
    modifies db`sessions, db`nextSessionId
    ensures db.Valid()
    ensures RefreshExpiry(now, ttlDays).None? ==>
      r == Err(InvalidExpiry) && db.sessions == old(db.sessions) && db.nextSessionId == old(db.nextSessionId)
    ensures RefreshExpiry(now, ttlDays).Some? ==>
      var expiresAt := RefreshExpiry(now, ttlDays).value;
      r == Ok(Tokens(SignAccess(user, accessTtl), raw, old(db.nextSessionId), expiresAt))
      && db.sessions == old(db.sessions) + [Session(old(db.nextSessionId), user.id, hash(raw), ua, ip, expiresAt)]
      && db.nextSessionId == old(db.nextSessionId) + 1
  {
    var g := CreateSession(db, hash, user.id, ua, ip, raw, now, ttlDays);
    match g {
      case Err(e) => r := Err(e);
      case Ok(grant) => r := Ok(Tokens(SignAccess(user, accessTtl), grant.refreshToken, grant.sessionId, grant.expiresAt));
    }
  }

  /** The sessions whose expiry lies after `now`, in table order. */
  function Unexpired(sessions: seq<Session>, now: int): (r: seq<Session>)
    ensures forall i :: 0 <= i < |r| ==> r[i] in sessions && r[i].expiresAt > now
    ensures forall i :: 0 <= i < |sessions| && sessions[i].expiresAt > now ==> sessions[i] in r
  {
    Filter(sessions, (s: Session) => s.expiresAt > now)
  }

  /** `session.findUnique` by the session id, when one is given. */
  function SessionById(sessions: seq<Session>, sessionId: Option<Id>): Option<nat> {
    if sessionId.Some? then SessionIndex(sessions, sessionId.value) else None
  }

  /** The sessions `refresh` tries: the one found by id, otherwise every unexpired one. */
  function RefreshTargets(sessions: seq<Session>, sessionId: Option<Id>, now: int): seq<Session> {
    match SessionById(sessions, sessionId)
    case Some(k) => [sessions[k]]
    case None => Unexpired(sessions, now)
  }

  /** The row `refresh` rotates, as an index into the table: the session found by id when its
      digest matches, whatever its expiry; without such a session, the first unexpired one
      whose digest matches. */
  function RefreshMatch(sessions: seq<Session>, sessionId: Option<Id>, now: int, digest: string): (r: Option<nat>)
    ensures r.Some? ==> r.value < |sessions| && sessions[r.value].token == digest
    ensures SessionById(sessions, sessionId).Some? ==>
      (r.Some? <==> sessions[SessionById(sessions, sessionId).value].token == digest)
      && (r.Some? ==> r == SessionById(sessions, sessionId))
    ensures SessionById(sessions, sessionId).None? ==>
      (r.Some? ==> sessions[r.value].expiresAt > now)
      && (r.None? ==> forall j :: 0 <= j < |sessions| ==> !(sessions[j].token == digest && sessions[j].expiresAt > now))
  {
    match SessionById(sessions, sessionId)
    case Some(k) => if sessions[k].token == digest then Some(k) else None
    case None => FirstIndex(sessions, (s: Session) => s.token == digest && s.expiresAt > now)
  }

  /** Scanning the targets for the first digest match finds exactly the row `RefreshMatch`
      names: digests are unique, so the first match among the targets is the only one. */
  lemma TargetsMatch(sessions: seq<Session>, next: Id, sessionId: Option<Id>, now: int, digest: string)
    requires SessionsOk(sessions, next)
    ensures RefreshMatch(sessions, sessionId, now, digest).Some? ==>
      exists j :: 0 <= j < |RefreshTargets(sessions, sessionId, now)| && RefreshTargets(sessions, sessionId, now)[j].token == digest
    ensures forall j :: 0 <= j < |RefreshTargets(sessions, sessionId, now)|
                          && RefreshTargets(sessions, sessionId, now)[j].token == digest ==>
                          RefreshMatch(sessions, sessionId, now, digest).Some?
                          && RefreshTargets(sessions, sessionId, now)[j] == sessions[RefreshMatch(sessions, sessionId, now, digest).value]
  {
    var targets := RefreshTargets(sessions, sessionId, now);
    var m := RefreshMatch(sessions, sessionId, now, digest);
    if SessionById(sessions, sessionId).None? {
      forall j | 0 <= j < |targets| && targets[j].token == digest
        ensures m.Some? && targets[j] == sessions[m.value]
      {
        assert targets[j] in sessions;
        var i :| 0 <= i < |sessions| && sessions[i] == targets[j];
        assert m.Some?;
        if i != m.value {
          assert sessions[i].token == sessions[m.value].token;
        }
      }
      if m.Some? {
        assert sessions[m.value] in targets;
        var j :| 0 <= j < |targets| && targets[j] == sessions[m.value];
        assert targets[j].token == digest;
      }
    } else {
      assert targets[0] == sessions[SessionById(sessions, sessionId).value];
    }
  }

  /** `for (const s of targets) if (compare(raw, s.token)) { matched = s; break }`. */
  method FirstMatch(targets: seq<Session>, digest: string) returns (m: Option<nat>)
    ensures m.Some? ==> m.value < |targets| && targets[m.value].token == digest
    ensures m.Some? ==> forall j :: 0 <= j < m.value ==> targets[j].token != digest
    ensures m.None? ==> forall j :: 0 <= j < |targets| ==> targets[j].token != digest
  {
    m := None;
    var i := 0;
    while i < |targets|
      invariant 0 <= i <= |targets|
      invariant forall j :: 0 <= j < i ==> targets[j].token != digest
    {
      if targets[i].token == digest {
        m := Some(i);
        break;
      }
      i := i + 1;
    }
  }

  /** With increasing ids, looking up a row's own id finds that row. */
  lemma SessionIndexOfRow(sessions: seq<Session>, next: Id, k: nat)
    requires SessionsOk(sessions, next) && k < |sessions|
    ensures SessionIndex(sessions, sessions[k].id) == Some(k)
  {
    var i := SessionIndex(sessions, sessions[k].id);
    assert i.Some?;
  }

  /** An id hint finds its session whatever the session's expiry, while the scan without a hint
      skips an expired session: an expired refresh token can still be rotated when its session
      id is presented with it. */
  lemma IdHintIgnoresExpiry(sessions: seq<Session>, next: Id, k: nat, now: int)
    requires SessionsOk(sessions, next) && k < |sessions|
    ensures RefreshMatch(sessions, Some(sessions[k].id), now, sessions[k].token) == Some(k)
    ensures sessions[k].expiresAt <= now ==> RefreshMatch(sessions, None, now, sessions[k].token).None?
  {
    SessionIndexOfRow(sessions, next, k);
    assert forall j :: 0 <= j < |sessions| && j != k ==> sessions[j].token != sessions[k].token;
  }

  /** The session table after rotating out the row at `k` for `newRow`. */
  function Rotate(sessions: seq<Session>, k: nat, newRow: Session): (r: seq<Session>)
    requires k < |sessions|
    ensures |r| == |sessions|
  {
    RemoveAt(sessions, k) + [newRow]
  }

  /** Rotation keeps the session invariant and leaves no session with the old row's id or
      digest: the old refresh token no longer matches anything. */
  lemma RotationRevokes(sessions: seq<Session>, next: Id, k: nat, newRow: Session)
    requires SessionsOk(sessions, next) && k < |sessions| && newRow.id == next && FreshDigest(sessions, newRow.token)
    ensures SessionsOk(Rotate(sessions, k, newRow), next + 1)
    ensures FreshDigest(Rotate(sessions, k, newRow), sessions[k].token)
    ensures forall i :: 0 <= i < |sessions| ==> Rotate(sessions, k, newRow)[i].id != sessions[k].id
  {
    var rest := RemoveAt(sessions, k);
    IdsBelowRemoveAt(sessions, SessionId, next, k);
    assert SessionsOk(rest, next) by {
      forall i, j | 0 <= i < j < |rest|
        ensures rest[i].token != rest[j].token
      {
        var i0 := if i < k then i else i + 1;
        var j0 := if j < k then j else j + 1;
        assert rest[i] == sessions[i0] && rest[j] == sessions[j0] && i0 < j0;
      }
    }
    assert FreshDigest(rest, newRow.token) by {
      forall i | 0 <= i < |rest| ensures rest[i].token != newRow.token {
        assert rest[i] == sessions[if i < k then i else i + 1];
      }
    }
    SessionsOkAppend(rest, next, newRow);
    var r := Rotate(sessions, k, newRow);
    forall i | 0 <= i < |r|
      ensures r[i].token != sessions[k].token && r[i].id != sessions[k].id
    {
      if i < |rest| {
        var i0 := if i < k then i else i + 1;
        assert r[i] == sessions[i0] && i0 != k;
        assert SessionId(sessions[i0]) != SessionId(sessions[k]) by {
          if i0 < k { assert SessionId(sessions[i0]) < SessionId(sessions[k]); }
          else { assert SessionId(sessions[k]) < SessionId(sessions[i0]); }
        }
      } else {
        assert r[i] == newRow;
      }
    }
  }

  /** `refresh(oldRaw, sessionId, ua, ip)` with the new random token `newRaw`. A missing token,
      no matching session or a vanished user fails and changes nothing; otherwise the matched
      session is deleted and a new one is created for the same user. */
  method Refresh(db: Database, hash: string -> string, oldRaw: string, sessionId: Option<Id>,
                 ua: Option<string>, ip: Option<string>, now: int, newRaw: string,
                 accessTtl: Option<string>, ttlDays: Option<string>)
    returns (r: Result<Tokens>)
    requires db.Valid() && FreshDigest(db.sessions, hash(newRaw))
    modifies db`sessions, db`nextSessionId
    ensures db.Valid()
    ensures r.Err? ==> db.sessions == old(db.sessions) && db.nextSessionId == old(db.nextSessionId)
    ensures oldRaw == "" ==> r == Err(Unauthorized("Missing token"))
    ensures oldRaw != "" && RefreshMatch(old(db.sessions), sessionId, now, hash(oldRaw)).None? ==>
      r == Err(Unauthorized("Invalid refresh token"))
    ensures oldRaw != "" && RefreshMatch(old(db.sessions), sessionId, now, hash(oldRaw)).Some? ==>
      var k := RefreshMatch(old(db.sessions), sessionId, now, hash(oldRaw)).value;
      var owner := UserIndex(old(db.users), old(db.sessions)[k].userId);
      var expiresAt := RefreshExpiry(now, ttlDays);
      (owner.None? ==> r == Err(Unauthorized("Unauthorized")))
      && (owner.Some? && expiresAt.None? ==> r == Err(InvalidExpiry))
      && (owner.Some? && expiresAt.Some? ==>
            r == Ok(Tokens(SignAccess(old(db.users)[owner.value], accessTtl), newRaw, old(db.nextSessionId), expiresAt.value))
            && db.sessions == Rotate(old(db.sessions), k,
                 Session(old(db.nextSessionId), old(db.sessions)[k].userId, hash(newRaw), ua, ip, expiresAt.value))
            && db.nextSessionId == old(db.nextSessionId) + 1)
    ensures r.Ok? ==> FreshDigest(db.sessions, hash(oldRaw))
  {
    if oldRaw == "" {
      return Err(Unauthorized("Missing token"));
    }
    var digest := hash(oldRaw);
    var targets := RefreshTargets(db.sessions, sessionId, now);
    var m := FirstMatch(targets, digest);
    TargetsMatch(db.sessions, db.nextSessionId, sessionId, now, digest);
    if m.None? {
      return Err(Unauthorized("Invalid refresh token"));
    }
    var matched := targets[m.value];
    var k := RefreshMatch(db.sessions, sessionId, now, digest).value;
    SessionIndexOfRow(db.sessions, db.nextSessionId, k);
    assert SessionIndex(db.sessions, matched.id) == Some(k);
    var owner := UserIndex(db.users, matched.userId);
    if owner.None? {
      return Err(Unauthorized("Unauthorized"));
    }
    var user := db.users[owner.value];
    var expiresAt := RefreshExpiry(now, ttlDays);
    if expiresAt.None? {
      return Err(InvalidExpiry);
    }
    var newRow := Session(db.nextSessionId, user.id, hash(newRaw), ua, ip, expiresAt.value);
    RotationRevokes(db.sessions, db.nextSessionId, k, newRow);
    SaveSessions(db, Rotate(db.sessions, k, newRow), db.nextSessionId + 1);
    r := Ok(Tokens(SignAccess(user, accessTtl), newRaw, newRow.id, newRow.expiresAt));
  }

  // ---------- logout ----------

  /** The first session holding `digest`, in table order. */
  function TokenIndex(sessions: seq<Session>, digest: string): (r: Option<nat>)
    ensures r.Some? ==> r.value < |sessions| && sessions[r.value].token == digest
    ensures r.Some? ==> forall j :: 0 <= j < r.value ==> sessions[j].token != digest
    ensures r.None? ==> FreshDigest(sessions, digest)
  {
    FirstIndex(sessions, (s: Session) => s.token == digest)
  }

  /** The session table after `logout(sessionId, token)`: by id when one is given (a missing
      row is ignored, the token is not looked at); otherwise the first session, expired or not,
      whose digest matches a non-empty token. */
  function LoggedOut(sessions: seq<Session>, hash: string -> string, sessionId: Option<Id>, token: Option<string>)
    : (r: seq<Session>)
    ensures |r| == |sessions| || |r| == |sessions| - 1
  {
    if sessionId.Some? then
      match SessionIndex(sessions, sessionId.value)
      case None => sessions
      case Some(k) => RemoveAt(sessions, k)
    else if !Falsy(token) then
      match TokenIndex(sessions, hash(token.value))
      case None => sessions
      case Some(k) => RemoveAt(sessions, k)
    else sessions
  }

  /** Removing one row keeps the session invariant. */
  lemma SessionsOkRemoveAt(sessions: seq<Session>, next: Id, k: nat)
    requires SessionsOk(sessions, next) && k < |sessions|
    ensures SessionsOk(RemoveAt(sessions, k), next)
    ensures forall i :: 0 <= i < |sessions| - 1 ==>
      RemoveAt(sessions, k)[i].id != sessions[k].id && RemoveAt(sessions, k)[i].token != sessions[k].token
  {
    var rest := RemoveAt(sessions, k);
    IdsBelowRemoveAt(sessions, SessionId, next, k);
    forall i, j | 0 <= i < j < |rest|
      ensures rest[i].token != rest[j].token
    {
      var i0 := if i < k then i else i + 1;
      var j0 := if j < k then j else j + 1;
      assert rest[i] == sessions[i0] && rest[j] == sessions[j0] && i0 < j0;
    }
    forall i | 0 <= i < |rest|
      ensures rest[i].id != sessions[k].id && rest[i].token != sessions[k].token
    {
      var i0 := if i < k then i else i + 1;
      assert rest[i] == sessions[i0] && i0 != k;
      assert SessionId(sessions[i0]) != SessionId(sessions[k]) by {
        if i0 < k { assert SessionId(sessions[i0]) < SessionId(sessions[k]); }
        else { assert SessionId(sessions[k]) < SessionId(sessions[i0]); }
      }
    }
  }

  /** Logout keeps the session invariant, leaves no session with the given id (or, without an
      id, with the token's digest), and is idempotent. */
  lemma LogoutRevokes(sessions: seq<Session>, next: Id, hash: string -> string, sessionId: Option<Id>, token: Option<string>)
    requires SessionsOk(sessions, next)
    ensures SessionsOk(LoggedOut(sessions, hash, sessionId, token), next)
    ensures sessionId.Some? ==>
      forall i :: 0 <= i < |LoggedOut(sessions, hash, sessionId, token)| ==>
        LoggedOut(sessions, hash, sessionId, token)[i].id != sessionId.value
    ensures sessionId.None? && !Falsy(token) ==> FreshDigest(LoggedOut(sessions, hash, sessionId, token), hash(token.value))
    ensures LoggedOut(LoggedOut(sessions, hash, sessionId, token), hash, sessionId, token)
         == LoggedOut(sessions, hash, sessionId, token)
  {
    var once := LoggedOut(sessions, hash, sessionId, token);
    if sessionId.Some? {
      var k := SessionIndex(sessions, sessionId.value);
      if k.Some? {
        SessionsOkRemoveAt(sessions, next, k.value);
      }
      assert SessionIndex(once, sessionId.value).None?;
    } else if !Falsy(token) {
      var k := TokenIndex(sessions, hash(token.value));
      if k.Some? {
        SessionsOkRemoveAt(sessions, next, k.value);
      }
      assert TokenIndex(once, hash(token.value)).None?;
    }
  }

  /** `logout(sessionId, token)`: always `{ ok: true }`. */
  method Logout(db: Database, hash: string -> string, sessionId: Option<Id>, token: Option<string>) returns (ok: bool)
    requires db.Valid()
    modifies db`sessions
    ensures db.Valid() && ok
    ensures db.sessions == LoggedOut(old(db.sessions), hash, sessionId, token)
  {
    LogoutRevokes(db.sessions, db.nextSessionId, hash, sessionId, token);
    if sessionId.Some? {
      var k := SessionIndex(db.sessions, sessionId.value);
      if k.Some? {
        db.sessions := RemoveAt(db.sessions, k.value);
      }
      return true;
    }
    if !Falsy(token) {
      var all := db.sessions;
      var m := FirstMatch(all, hash(token.value));
      if m.Some? {
        assert TokenIndex(all, hash(token.value)) == m;
        SessionIndexOfRow(all, db.nextSessionId, m.value);
        db.sessions := RemoveAt(all, SessionIndex(all, all[m.value].id).value);
      }
    }
    ok := true;
  }
}
