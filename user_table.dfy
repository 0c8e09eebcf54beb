/**
 * The users table and the account state machine over it, as values.
 *
 * A table is the sequence of its rows in insertion order; the row at index i
 * has the auto-increment id i + 1 (users are never deleted). The repository's
 * lookups return the first row that matches. Each operation of the users
 * service is a function from the old table to a `Step`: what the service
 * returns (or the error it raises) and the table afterwards.
 */
module UserTable {
  import opened Common

  /** One user record. Timestamps are milliseconds since the epoch. */
  datatype User = User(
    id: int,
    email: string,
    fullName: Option<string>,
    passwordHash: Option<string>,
    googleId: Option<string>,
    isEmailConfirmed: bool,
    emailConfirmToken: Option<string>,
    resetPasswordToken: Option<string>,
    resetPasswordExpiresAt: Option<int>)

  type Table = seq<User>

  /** The result of one service call together with the table it leaves behind. */
  datatype Step<T> = Step(result: Result<T>, table: Table)

  /** The column lookups the repository offers. */
  datatype Key =
    | ByEmail(email: string)
    | ByGoogleId(googleId: string)
    | ByConfirmToken(token: string)
    | ByResetToken(token: string)

  predicate Holds(u: User, k: Key) {
    match k
    case ByEmail(e) => u.email == e
    case ByGoogleId(g) => u.googleId == Some(g)
    case ByConfirmToken(c) => u.emailConfirmToken == Some(c)
    case ByResetToken(r) => u.resetPasswordToken == Some(r)
  }

  /** Some row matches the key. */
  ghost predicate Held(t: Table, k: Key) {
    exists i :: 0 <= i < |t| && Holds(t[i], k)
  }

  /** Row i is the first row that matches the key. */
  ghost predicate IsFirst(t: Table, k: Key, i: int) {
    0 <= i < |t| && Holds(t[i], k) && forall j :: 0 <= j < i ==> !Holds(t[j], k)
  }

  /** At most one row matches the key (random tokens are unique in practice, not by construction). */
  ghost predicate AtMostOne(t: Table, k: Key) {
    forall i, j :: 0 <= i < j < |t| && Holds(t[i], k) ==> !Holds(t[j], k)
  }

  /**
   * The table invariant: ids follow row order, emails are unique, and a
   * googleId, when present, is unique.
   */
  ghost predicate Valid(t: Table) {
    && (forall i :: 0 <= i < |t| ==> t[i].id == i + 1)
    && (forall i, j :: 0 <= i < j < |t| ==> t[i].email != t[j].email)
    && (forall i, j :: 0 <= i < j < |t| && t[i].googleId.Some? ==> t[i].googleId != t[j].googleId)
  }

  /** The repository's `findOne({ where: ... })`: the index of the first matching row. */
  function Find(t: Table, k: Key): (r: Option<int>)
    ensures r.Some? ==> IsFirst(t, k, r.value)
    ensures r.None? ==> !Held(t, k)
  {
    if |t| == 0 then None
    else if Holds(t[0], k) then Some(0)
    else
      match Find(t[1..], k)
      case None =>
        assert forall i :: 0 < i < |t| ==> t[i] == t[1..][i - 1];
        None
      case Some(i) =>
        assert forall j :: 0 < j <= i ==> t[j] == t[1..][j - 1];
        Some(i + 1)
  }

  /** findByEmail: the user with this email, if any. */
  function FindByEmail(t: Table, email: string): (r: Option<User>)
    ensures r.None? <==> !Held(t, ByEmail(email))
    ensures r.Some? ==> r.value.email == email && exists i :: IsFirst(t, ByEmail(email), i) && r.value == t[i]
    ensures Valid(t) && r.Some? ==> 1 <= r.value.id <= |t| && t[r.value.id - 1] == r.value
  {
    match Find(t, ByEmail(email))
    case None => None
    case Some(i) => Some(t[i])
  }

  /** findById: the user with this id, if any. */
  function FindById(t: Table, id: int): (r: Option<User>)
    ensures Valid(t) ==> (r.Some? <==> exists i :: 0 <= i < |t| && t[i].id == id)
    ensures Valid(t) && r.Some? ==> r.value.id == id && r.value in t
  {
    if 1 <= id <= |t| then Some(t[id - 1]) else None
  }

  /** createLocalUser: a new unconfirmed account with a hashed password, unless the email is taken. */
  function CreateLocalUser(t: Table, email: string, password: string, fullName: Option<string>,
                           confirmToken: string, hash: string -> string): (r: Step<User>)
    ensures Held(t, ByEmail(email)) ==> r == Step(Err(EmailInUse), t)
    ensures !Held(t, ByEmail(email)) ==> r.result.Ok? && r.table == t + [r.result.value]
    ensures r.result.Ok? ==>
      var u := r.result.value;
      && u.id == |t| + 1 && u.email == email && u.fullName == fullName
      && u.passwordHash == Some(hash(password)) && u.googleId == None
      && !u.isEmailConfirmed && u.emailConfirmToken == Some(confirmToken)
      && u.resetPasswordToken == None && u.resetPasswordExpiresAt == None
    ensures Valid(t) ==> Valid(r.table)
  {
    if FindByEmail(t, email).Some? then Step(Err(EmailInUse), t)
    else
      var u := User(id := |t| + 1, email := email, fullName := fullName,
                    passwordHash := Some(hash(password)), googleId := None,
                    isEmailConfirmed := false, emailConfirmToken := Some(confirmToken),
                    resetPasswordToken := None, resetPasswordExpiresAt := None);
      Step(Ok(u), t + [u])
  }

  /**
   * createGoogleUser: the user already holding the googleId is returned as is;
   * otherwise the user with the email is linked to the googleId and marked
   * confirmed; otherwise a new confirmed account without a password is added.
   */
  function CreateGoogleUser(t: Table, email: string, googleId: string, fullName: string): (r: Step<User>)
    ensures r.result.Ok? && r.result.value.googleId == Some(googleId)
    ensures Held(t, ByGoogleId(googleId)) ==>
      r.table == t && exists i :: IsFirst(t, ByGoogleId(googleId), i) && r.result.value == t[i]
    ensures !Held(t, ByGoogleId(googleId)) && Held(t, ByEmail(email)) ==>
      exists i :: IsFirst(t, ByEmail(email), i)
        && r.table == t[i := t[i].(googleId := Some(googleId), isEmailConfirmed := true)]
        && r.result.value == r.table[i]
    ensures !Held(t, ByGoogleId(googleId)) && !Held(t, ByEmail(email)) ==>
      var u := r.result.value;
      && r.table == t + [u]
      && u.id == |t| + 1 && u.email == email && u.fullName == Some(fullName)
      && u.passwordHash == None && u.isEmailConfirmed && u.emailConfirmToken == None
      && u.resetPasswordToken == None && u.resetPasswordExpiresAt == None
    ensures Valid(t) ==> Valid(r.table)
  {
    match Find(t, ByGoogleId(googleId))
    case Some(i) => Step(Ok(t[i]), t)
    case None =>
      match Find(t, ByEmail(email))
      case Some(i) =>
        var linked := t[i].(googleId := Some(googleId), isEmailConfirmed := true);
        Step(Ok(linked), t[i := linked])
      case None =>
        var u := User(id := |t| + 1, email := email, fullName := Some(fullName),
                      passwordHash := None, googleId := Some(googleId),
                      isEmailConfirmed := true, emailConfirmToken := None,
                      resetPasswordToken := None, resetPasswordExpiresAt := None);
        Step(Ok(u), t + [u])
  }

  /** markEmailConfirmed: the one-shot transition that consumes a confirm token. */
  function MarkEmailConfirmed(t: Table, token: string): (r: Step<User>)
    ensures !Held(t, ByConfirmToken(token)) ==> r == Step(Err(InvalidToken), t)
    ensures Held(t, ByConfirmToken(token)) ==>
      exists i :: IsFirst(t, ByConfirmToken(token), i)
        && r.table == t[i := t[i].(isEmailConfirmed := true, emailConfirmToken := None)]
        && r.result == Ok(r.table[i])
    ensures Valid(t) ==> Valid(r.table)
  {
    match Find(t, ByConfirmToken(token))
    case None => Step(Err(InvalidToken), t)
    case Some(i) =>
      var u := t[i].(isEmailConfirmed := true, emailConfirmToken := None);
      Step(Ok(u), t[i := u])
  }

  /**
   * setResetPasswordToken: stamps a reset token and its expiry on the given
   * stored user; nothing else in the table changes.
   */
  function SetResetPasswordToken(t: Table, user: User, token: string, expiresAt: int): (r: Table)
    requires 1 <= user.id <= |t| && t[user.id - 1] == user
    ensures |r| == |t| && r[user.id - 1].resetPasswordToken == Some(token)
    ensures r[user.id - 1].resetPasswordExpiresAt == Some(expiresAt)
    ensures r[user.id - 1] == user.(resetPasswordToken := r[user.id - 1].resetPasswordToken,
                                     resetPasswordExpiresAt := r[user.id - 1].resetPasswordExpiresAt)
    ensures forall j :: 0 <= j < |t| && j != user.id - 1 ==> r[j] == t[j]
    ensures Valid(t) ==> Valid(r)
  {
    t[user.id - 1 := user.(resetPasswordToken := Some(token), resetPasswordExpiresAt := Some(expiresAt))]
  }

  /**
   * resetPassword: the first holder of the token gets a new password hash and
   * loses its token and expiry, provided an expiry is stored and it is not
   * before `now` (an expiry equal to `now` is still accepted).
   */
  function ResetPassword(t: Table, token: string, newPassword: string, now: int,
                         hash: string -> string): (r: Step<User>)
    ensures r.result.Ok? <==>
      exists i :: IsFirst(t, ByResetToken(token), i)
        && t[i].resetPasswordExpiresAt.Some? && now <= t[i].resetPasswordExpiresAt.value
    ensures r.result.Err? ==> r == Step(Err(InvalidOrExpiredToken), t)
    ensures r.result.Ok? ==>
      exists i :: IsFirst(t, ByResetToken(token), i)
        && r.table == t[i := t[i].(passwordHash := Some(hash(newPassword)),
                                   resetPasswordToken := None, resetPasswordExpiresAt := None)]
        && r.result.value == r.table[i]
    ensures Valid(t) ==> Valid(r.table)
  {
    match Find(t, ByResetToken(token))
    case None => Step(Err(InvalidOrExpiredToken), t)
    case Some(i) =>
      if t[i].resetPasswordExpiresAt.None? || t[i].resetPasswordExpiresAt.value < now then
        Step(Err(InvalidOrExpiredToken), t)
      else
        var u := t[i].(passwordHash := Some(hash(newPassword)),
                       resetPasswordToken := None, resetPasswordExpiresAt := None);
        Step(Ok(u), t[i := u])
  }

  /** update: sets fullName when one is given; an unknown id is an error. */
  function Update(t: Table, id: int, fullName: Option<string>): (r: Step<User>)
    ensures Valid(t) ==> (r.result.Err? <==> !exists i :: 0 <= i < |t| && t[i].id == id)
    ensures r.result.Err? ==> r == Step(Err(UserNotFound), t)
    ensures r.result.Ok? ==>
      && 1 <= id <= |t|
      && r.table == t[id - 1 := r.result.value]
      && r.result.value == t[id - 1].(fullName := r.result.value.fullName)
      && r.result.value.fullName == (if fullName.Some? then fullName else t[id - 1].fullName)
    ensures Valid(t) ==> Valid(r.table)
  {
    match FindById(t, id)
    case None => Step(Err(UserNotFound), t)
    case Some(user) =>
      var u := if fullName.Some? then t[id - 1].(fullName := fullName) else t[id - 1];
      Step(Ok(u), t[id - 1 := u])
  }

  // ---------------------------------------------------------------------------
  // Properties that relate several calls
  // ---------------------------------------------------------------------------

  /** Find returns exactly the first matching row. */
  lemma FindIsFirst(t: Table, k: Key, i: int)
    requires IsFirst(t, k, i)
    ensures Find(t, k) == Some(i)
  {
  }

  /**
   * Logging in with Google twice with the same googleId is idempotent: the
   * second call returns the user of the first and changes nothing, whatever
   * email and name it carries.
   */
  lemma {:induction false} GoogleLoginIdempotent(t: Table, email: string, email2: string,
                                                 googleId: string, fullName: string, fullName2: string)
    ensures var first := CreateGoogleUser(t, email, googleId, fullName);
            CreateGoogleUser(first.table, email2, googleId, fullName2) == first
  {
    var first := CreateGoogleUser(t, email, googleId, fullName);
    var t' := first.table;
    var k := ByGoogleId(googleId);
    var i :| 0 <= i < |t'| && t'[i] == first.result.value && IsFirst(t', k, i) by {
      if Held(t, k) {
        var i :| IsFirst(t, k, i) && first.result.value == t[i];
        assert IsFirst(t', k, i);
      } else if Held(t, ByEmail(email)) {
        var i :| IsFirst(t, ByEmail(email), i)
          && t' == t[i := t[i].(googleId := Some(googleId), isEmailConfirmed := true)];
        assert forall j :: 0 <= j < i ==> t'[j] == t[j];
        assert IsFirst(t', k, i);
      } else {
        assert forall j :: 0 <= j < |t| ==> t'[j] == t[j];
        assert IsFirst(t', k, |t|);
      }
    }
    FindIsFirst(t', k, i);
  }

  /** A confirm token held by one user cannot be used twice. */
  lemma ConfirmIsSingleUse(t: Table, token: string)
    requires AtMostOne(t, ByConfirmToken(token))
    ensures var first := MarkEmailConfirmed(t, token);
            MarkEmailConfirmed(first.table, token) == Step(Err(InvalidToken), first.table)
  {
  }

  /** A reset token held by one user cannot be used twice, at any time and with any password. */
  lemma ResetIsSingleUse(t: Table, token: string, password: string, now: int,
                         password2: string, now2: int, hash: string -> string)
    requires AtMostOne(t, ByResetToken(token))
    requires ResetPassword(t, token, password, now, hash).result.Ok?
    ensures var first := ResetPassword(t, token, password, now, hash);
            ResetPassword(first.table, token, password2, now2, hash) == Step(Err(InvalidOrExpiredToken), first.table)
  {
  }

  /**
   * Once a reset token is stamped on a user that no earlier row shares it with,
   * resetting with that token succeeds exactly while `now` has not passed the
   * stored expiry.
   */
  lemma ResetTokenWindow(t: Table, user: User, token: string, expiresAt: int,
                         password: string, now: int, hash: string -> string)
    requires 1 <= user.id <= |t| && t[user.id - 1] == user
    requires forall j :: 0 <= j < user.id - 1 ==> !Holds(t[j], ByResetToken(token))
    ensures ResetPassword(SetResetPasswordToken(t, user, token, expiresAt), token, password, now, hash).result.Ok?
            <==> now <= expiresAt
  {
  }
}
