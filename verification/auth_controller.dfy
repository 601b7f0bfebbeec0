/**
 * The account handlers (`register`, `login`, `forgotPassword`, `resetPassword`)
 * over the user table.
 *
 * The table is a sequence of rows in id order (ids come from an auto-increment
 * counter, `nextId`); a lookup returns the first matching row in that order.
 * `findFirst` is called without `orderBy`, so the store promises no order: when
 * several rows match, the first one by id is this model's choice. The e-mail
 * column is unique, so only the reset lookup can meet several matches. Password hashing
 * (`bcrypt.hash`, `bcrypt.compare`), token signing (`jwt.sign`) and the random
 * reset token (`crypto.randomBytes`) are injected; "now" is a parameter in
 * milliseconds.
 *
 * `resetPassword` reads `token` from the request body. When the body has no
 * `token` field the query filter `resetToken: undefined` is dropped by the
 * store, so the lookup matches any row with an unexpired reset. The functions
 * `FirstMatch` and `ResetPasswordAsWritten`, and the method
 * `HandleResetPassword`, keep that behaviour; `ResetPassword` and
 * `HandleResetPasswordCorrected` reject a missing token instead. A `token` that
 * is present is taken to be a string.
 */
module AuthController {
  import opened Wrappers

  type UserId = nat

  /** A reset token stays valid for one hour: `Date.now() + 3600000`. */
  const ResetWindowMs: int := 3600000

  datatype User = User(id: UserId, email: string, passwordHash: string,
                       resetToken: Option<string>, resetTokenExpiry: Option<int>)

  /** The JSON bodies the handlers send. */
  datatype Body =
    | ErrorBody(error: string)
    | MessageBody(message: string)
    | TokenBody(token: string)
    | ResetTokenBody(resetToken: string)

  datatype Reply = Reply(status: nat, body: Body)

  const EmailTaken := Reply(400, ErrorBody("Email already exists"))
  const UserCreated := Reply(201, MessageBody("User created"))
  const InvalidCredentials := Reply(400, ErrorBody("Invalid credentials"))
  const UserNotFound := Reply(404, ErrorBody("User not found"))
  const InvalidOrExpired := Reply(400, ErrorBody("Invalid or expired token"))
  const ResetDone := Reply(200, MessageBody("Password reset successful"))

  /** The whole table: its rows in id order and the next id to hand out. */
  datatype Accounts = Accounts(rows: seq<User>, nextId: UserId)

  /** Ids increase along the table and stay below `nextId`; no e-mail occurs twice. */
  ghost predicate WellFormed(a: Accounts)
  {
    && (forall i :: 0 <= i < |a.rows| ==> a.rows[i].id < a.nextId)
    && (forall i, j :: 0 <= i < j < |a.rows| ==> a.rows[i].id < a.rows[j].id)
    && (forall i, j :: 0 <= i < j < |a.rows| ==> a.rows[i].email != a.rows[j].email)
  }

  ghost predicate Registered(a: Accounts, email: string)
  {
    exists i :: 0 <= i < |a.rows| && a.rows[i].email == email
  }

  /** The `where` objects the handlers pass to the store. */
  datatype Filter =
    | ByEmail(email: string)
      /** `{ resetToken: token, resetTokenExpiry: { gt: now } }`; `None` is an absent `token`. */
    | ByResetToken(token: Option<string>, now: int)

  /** Whether a row satisfies a filter; an `undefined` field of the filter constrains nothing. */
  predicate Matches(u: User, f: Filter)
    ensures f.ByEmail? ==> (Matches(u, f) <==> u.email == f.email)
    ensures f.ByResetToken? && f.token.Some? ==> (Matches(u, f) <==> CanReset(u, f.token.value, f.now))
    ensures f.ByResetToken? && f.token.None? ==>
      (Matches(u, f) <==> u.resetTokenExpiry.Some? && u.resetTokenExpiry.value > f.now)
  {
    match f
    case ByEmail(email) => u.email == email
    case ByResetToken(token, now) =>
      && (token.None? || u.resetToken == token)
      && u.resetTokenExpiry.Some? && u.resetTokenExpiry.value > now
  }

  /** The index of the first row matching the filter (`findUnique` / `findFirst`). */
  function FirstMatch(rows: seq<User>, f: Filter): (r: Option<nat>)
    ensures r.Some? ==> r.value < |rows| && Matches(rows[r.value], f)
    ensures r.Some? ==> forall j :: 0 <= j < r.value ==> !Matches(rows[j], f)
    ensures r.None? ==> forall j :: 0 <= j < |rows| ==> !Matches(rows[j], f)
    decreases |rows|
  {
    if rows == [] then None
    else if Matches(rows[0], f) then Some(0)
    else match FirstMatch(rows[1..], f)
      case None => None
      case Some(k) => Some(k + 1)
  }

  /** The store's lookup: a scan of the table in id order. */
  method FindFirst(rows: seq<User>, f: Filter) returns (idx: Option<nat>)
    ensures idx == FirstMatch(rows, f)
  {
    var i := 0;
    while i < |rows|
      invariant 0 <= i <= |rows|
      invariant forall j :: 0 <= j < i ==> !Matches(rows[j], f)
    {
      if Matches(rows[i], f) {
        return Some(i);
      }
      i := i + 1;
    }
    return None;
  }

  /** Under a unique e-mail column, the row found by e-mail is the only row with it. */
  lemma EmailLookupUnique(a: Accounts, email: string)
    requires WellFormed(a)
    ensures FirstMatch(a.rows, ByEmail(email)).Some? <==> Registered(a, email)
    ensures forall i :: 0 <= i < |a.rows| && a.rows[i].email == email ==>
      FirstMatch(a.rows, ByEmail(email)) == Some(i)
  {
  }

  // ---------------------------------------------------------------------------
  // The handlers as functions of the table

  /** `register`, with `passwordHash` the bcrypt hash of the submitted password. */
  function Register(a: Accounts, email: string, passwordHash: string): (r: (Accounts, Reply))
    requires WellFormed(a)
    ensures WellFormed(r.0)
    ensures Registered(a, email) ==> r == (a, EmailTaken)
    ensures !Registered(a, email) ==>
      r.1 == UserCreated && r.0.nextId == a.nextId + 1 &&
      r.0.rows == a.rows + [User(a.nextId, email, passwordHash, None, None)]
  {
    EmailLookupUnique(a, email);
    match FirstMatch(a.rows, ByEmail(email))
    case Some(_) => (a, EmailTaken)
    case None =>
      (Accounts(a.rows + [User(a.nextId, email, passwordHash, None, None)], a.nextId + 1), UserCreated)
  }

  /** `login`: `matches` is `bcrypt.compare`, `sign` is `jwt.sign` of `{ userId }`. */
  function Login(a: Accounts, email: string, password: string,
                 matches: (string, string) -> bool, sign: UserId -> string): (r: Reply)
    requires WellFormed(a)
    ensures r == InvalidCredentials || r.status == 200
    ensures r.status == 200 <==>
      exists i :: 0 <= i < |a.rows| && a.rows[i].email == email && matches(password, a.rows[i].passwordHash)
    ensures forall i :: 0 <= i < |a.rows| && a.rows[i].email == email && matches(password, a.rows[i].passwordHash) ==>
      r == Reply(200, TokenBody(sign(a.rows[i].id)))
  {
    EmailLookupUnique(a, email);
    match FirstMatch(a.rows, ByEmail(email))
    case None => InvalidCredentials
    case Some(i) =>
      if !matches(password, a.rows[i].passwordHash) then InvalidCredentials
      else Reply(200, TokenBody(sign(a.rows[i].id)))
  }

  /** `forgotPassword`: `freshToken` is the random hex token. */
  function ForgotPassword(a: Accounts, email: string, now: int, freshToken: string): (r: (Accounts, Reply))
    requires WellFormed(a)
    ensures WellFormed(r.0)
    ensures !Registered(a, email) ==> r == (a, UserNotFound)
    ensures Registered(a, email) ==>
      r.1 == Reply(200, ResetTokenBody(freshToken)) && r.0.nextId == a.nextId && |r.0.rows| == |a.rows| &&
      forall i :: 0 <= i < |a.rows| ==>
        r.0.rows[i] == if a.rows[i].email == email
                       then a.rows[i].(resetToken := Some(freshToken), resetTokenExpiry := Some(now + ResetWindowMs))
                       else a.rows[i]
  {
    EmailLookupUnique(a, email);
    match FirstMatch(a.rows, ByEmail(email))
    case None => (a, UserNotFound)
    case Some(i) =>
      var u := a.rows[i].(resetToken := Some(freshToken), resetTokenExpiry := Some(now + ResetWindowMs));
      (a.(rows := a.rows[i := u]), Reply(200, ResetTokenBody(freshToken)))
  }

  /** A row whose reset token is `token` and has not expired at `now`. */
  predicate CanReset(u: User, token: string, now: int)
  {
    u.resetToken == Some(token) && u.resetTokenExpiry.Some? && u.resetTokenExpiry.value > now
  }

  /** The row update of a successful reset: new hash, token and expiry cleared. */
  function ClearedReset(u: User, newHash: string): (r: User)
    ensures r.id == u.id && r.email == u.email
    ensures r.passwordHash == newHash
    ensures r.resetToken.None? && r.resetTokenExpiry.None?
    ensures forall now :: !Matches(r, ByResetToken(None, now))
  {
    u.(passwordHash := newHash, resetToken := None, resetTokenExpiry := None)
  }

  /** `resetPassword` as its query behaves for a string `token` or an absent one. */
  function ResetPasswordAsWritten(a: Accounts, token: Option<string>, newHash: string, now: int): (r: (Accounts, Reply))
    ensures WellFormed(a) ==> WellFormed(r.0)
    ensures r.1 == ResetDone || r == (a, InvalidOrExpired)
    ensures r.1 == ResetDone <==> exists i :: 0 <= i < |a.rows| && Matches(a.rows[i], ByResetToken(token, now))
    ensures r.1 == ResetDone ==>
      r.0.nextId == a.nextId &&
      exists i :: 0 <= i < |a.rows| && Matches(a.rows[i], ByResetToken(token, now)) &&
        r.0.rows == a.rows[i := ClearedReset(a.rows[i], newHash)]
  {
    match FirstMatch(a.rows, ByResetToken(token, now))
    case None => (a, InvalidOrExpired)
    case Some(i) => (a.(rows := a.rows[i := ClearedReset(a.rows[i], newHash)]), ResetDone)
  }

  /**
   * A request without a `token` field resets the password of the first user with
   * an unexpired reset pending, although the caller never saw that user's token.
   */
  lemma AbsentTokenResetsPendingUser(a: Accounts, newHash: string, now: int, k: nat)
    requires WellFormed(a)
    requires k < |a.rows| && a.rows[k].resetTokenExpiry.Some? && a.rows[k].resetTokenExpiry.value > now
    ensures ResetPasswordAsWritten(a, None, newHash, now).1 == ResetDone
    ensures var after := ResetPasswordAsWritten(a, None, newHash, now).0;
      exists i :: 0 <= i < |a.rows| &&
        a.rows[i].resetTokenExpiry.Some? && a.rows[i].resetTokenExpiry.value > now &&
        after.rows[i].passwordHash == newHash && after.rows[i].id == a.rows[i].id
    ensures ResetPassword(a, None, newHash, now) == (a, InvalidOrExpired)
  {
  }

  /** `resetPassword` as intended: a missing token is invalid, like a wrong or expired one. */
  function ResetPassword(a: Accounts, token: Option<string>, newHash: string, now: int): (r: (Accounts, Reply))
    requires WellFormed(a)
    ensures WellFormed(r.0)
    ensures r.1 == ResetDone || r == (a, InvalidOrExpired)
    ensures r.1 == ResetDone <==>
      token.Some? && exists i :: 0 <= i < |a.rows| && CanReset(a.rows[i], token.value, now)
    ensures r.1 == ResetDone ==>
      r.0.nextId == a.nextId && |r.0.rows| == |a.rows| &&
      exists i :: 0 <= i < |a.rows| && CanReset(a.rows[i], token.value, now) &&
        r.0.rows == a.rows[i := ClearedReset(a.rows[i], newHash)]
  {
    if token.None? then (a, InvalidOrExpired)
    else
      var r := ResetPasswordAsWritten(a, token, newHash, now);
      if r.1 == ResetDone then
        var i := FirstMatch(a.rows, ByResetToken(token, now)).value;
        assert CanReset(a.rows[i], token.value, now);
        r
      else
        r
  }

  // ---------------------------------------------------------------------------
  // Properties across handlers

  /** No two rows hold the same reset token (tokens are 32 random bytes). */
  ghost predicate TokenHeldByAtMostOne(a: Accounts, token: string)
  {
    forall i, j ::
      (0 <= i < |a.rows| && 0 <= j < |a.rows| &&
       a.rows[i].resetToken == Some(token) && a.rows[j].resetToken == Some(token)) ==> i == j
  }

  /** A second registration of the same e-mail is refused and changes nothing. */
  lemma RegisterTwiceRejected(a: Accounts, email: string, hash1: string, hash2: string)
    requires WellFormed(a)
    ensures var a1 := Register(a, email, hash1).0;
      Register(a1, email, hash2) == (a1, EmailTaken)
  {
    var a1 := Register(a, email, hash1).0;
    if !Registered(a, email) {
      assert a1.rows[|a.rows|].email == email;
    }
  }

  /** An unknown e-mail and a wrong password get the very same reply. */
  lemma LoginFailuresIndistinguishable(a: Accounts, unknown: string, p1: string, known: string, p2: string,
                                       matches: (string, string) -> bool, sign: UserId -> string)
    requires WellFormed(a)
    requires !Registered(a, unknown)
    requires forall i :: 0 <= i < |a.rows| && a.rows[i].email == known ==> !matches(p2, a.rows[i].passwordHash)
    ensures Login(a, unknown, p1, matches, sign) == Login(a, known, p2, matches, sign) == InvalidCredentials
  {
  }

  /** A reset token works at most once: after a successful reset the same token is refused. */
  lemma ResetTokenSingleUse(a: Accounts, token: string, hash1: string, hash2: string,
                                               now1: int, now2: int)
    requires WellFormed(a) && TokenHeldByAtMostOne(a, token)
    ensures var r1 := ResetPassword(a, Some(token), hash1, now1);
      r1.1 == ResetDone ==> ResetPassword(r1.0, Some(token), hash2, now2) == (r1.0, InvalidOrExpired)
  {
  }

  /**
   * A token issued by `forgotPassword` at `t0` resets the password exactly when it is
   * used strictly before `t0 + 3600000`.
   */
  lemma ResetTokenExpires(a: Accounts, email: string, t0: int, token: string,
                                             newHash: string, now: int)
    requires WellFormed(a) && Registered(a, email)
    requires forall i :: 0 <= i < |a.rows| ==> a.rows[i].resetToken != Some(token)
    ensures var a1 := ForgotPassword(a, email, t0, token).0;
      ResetPassword(a1, Some(token), newHash, now).1 == ResetDone <==> now < t0 + ResetWindowMs
  {
  }

  /** After forgot-password and a timely reset, the new password logs the same user in. */
  lemma ResetThenLogin(a: Accounts, email: string, t0: int, token: string, now: int,
                                          password: string, newHash: string,
                                          matches: (string, string) -> bool, sign: UserId -> string)
    requires WellFormed(a) && Registered(a, email)
    requires forall i :: 0 <= i < |a.rows| ==> a.rows[i].resetToken != Some(token)
    requires now < t0 + ResetWindowMs && matches(password, newHash)
    ensures var a1 := ForgotPassword(a, email, t0, token).0;
      var a2 := ResetPassword(a1, Some(token), newHash, now).0;
      forall k :: 0 <= k < |a.rows| && a.rows[k].email == email ==>
        Login(a2, email, password, matches, sign) == Reply(200, TokenBody(sign(a.rows[k].id)))
  {
  }

  // ---------------------------------------------------------------------------
  // The handlers over the live table

  /** The user table: rows created and updated in place by the handlers. */
  class UserTable {
    var rows: seq<User>
    var nextId: UserId

    /** An empty table; auto-increment ids start at 1. */
    constructor ()
      ensures rows == [] && nextId == 1
    {
      rows := [];
      nextId := 1;
    }

    function State(): Accounts
      reads this
    {
      Accounts(rows, nextId)
    }

    ghost predicate Valid()
      reads this
    {
      WellFormed(State())
    }
  }

  /** `register`: refuse a known e-mail, otherwise create the user with the hashed password. */
  method HandleRegister(db: UserTable, email: string, password: string, hash: string -> string)
    returns (reply: Reply)
    requires db.Valid()
    modifies db
    ensures db.Valid()
    ensures (db.State(), reply) == Register(old(db.State()), email, hash(password))
  {
    var existingUser := FindFirst(db.rows, ByEmail(email));
    if existingUser.Some? {
      return EmailTaken;
    }
    var hashedPassword := hash(password);
    db.rows := db.rows + [User(db.nextId, email, hashedPassword, None, None)];
    db.nextId := db.nextId + 1;
    reply := UserCreated;
  }

  /** `login`: it has no `modifies` clause, so the table is left as it was. */
  method HandleLogin(db: UserTable, email: string, password: string,
                     matches: (string, string) -> bool, sign: UserId -> string)
    returns (reply: Reply)
    requires db.Valid()
    ensures reply == Login(db.State(), email, password, matches, sign)
  {
    var user := FindFirst(db.rows, ByEmail(email));
    if user.None? {
      return InvalidCredentials;
    }
    var valid := matches(password, db.rows[user.value].passwordHash);
    if !valid {
      return InvalidCredentials;
    }
    reply := Reply(200, TokenBody(sign(db.rows[user.value].id)));
  }

  /** `forgotPassword`: store a fresh token, valid for one hour from `now`, on the user's row. */
  method HandleForgotPassword(db: UserTable, email: string, now: int, freshToken: string)
    returns (reply: Reply)
    requires db.Valid()
    modifies db
    ensures db.Valid()
    ensures (db.State(), reply) == ForgotPassword(old(db.State()), email, now, freshToken)
  {
    var user := FindFirst(db.rows, ByEmail(email));
    if user.None? {
      return UserNotFound;
    }
    var i := user.value;
    db.rows := db.rows[i := db.rows[i].(resetToken := Some(freshToken), resetTokenExpiry := Some(now + ResetWindowMs))];
    reply := Reply(200, ResetTokenBody(freshToken));
  }

  /**
   * `resetPassword` as written: the lookup runs whatever `token` is, so a body
   * without one reaches the first row with an unexpired reset.
   */
  method HandleResetPassword(db: UserTable, token: Option<string>, newPassword: string, now: int,
                             hash: string -> string)
    returns (reply: Reply)
    requires db.Valid()
    modifies db
    ensures db.Valid()
    ensures (db.State(), reply) == ResetPasswordAsWritten(old(db.State()), token, hash(newPassword), now)
  {
    var user := FindFirst(db.rows, ByResetToken(token, now));
    if user.None? {
      return InvalidOrExpired;
    }
    var hashedPassword := hash(newPassword);
    db.rows := db.rows[user.value := ClearedReset(db.rows[user.value], hashedPassword)];
    reply := ResetDone;
  }

  /** `resetPassword` corrected: a request without a token is rejected before the lookup. */
  method HandleResetPasswordCorrected(db: UserTable, token: Option<string>, newPassword: string, now: int,
                             hash: string -> string)
    returns (reply: Reply)
    requires db.Valid()
    modifies db
    ensures db.Valid()
    ensures (db.State(), reply) == ResetPassword(old(db.State()), token, hash(newPassword), now)
  {
    if token.None? {
      return InvalidOrExpired;
    }
    var user := FindFirst(db.rows, ByResetToken(token, now));
    if user.None? {
      return InvalidOrExpired;
    }
    var hashedPassword := hash(newPassword);
    db.rows := db.rows[user.value := ClearedReset(db.rows[user.value], hashedPassword)];
    reply := ResetDone;
  }
}
