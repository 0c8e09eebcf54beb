/**
 * The decisions of the authentication service, as functions of the users
 * table. The password check (`verify`) and the session-token issuer
 * (`issue`, a JWT signer) are abstract parameters; random tokens and the
 * current time in milliseconds are inputs.
 */
module AuthFlow {
  import opened Common
  import opened UserTable

  /** The claims of an access token: the user's id as subject, and the email. */
  datatype Payload = Payload(sub: int, email: string)

  /** What signup reveals about the new account: no hash and no token. */
  datatype SignupView = SignupView(id: int, email: string, fullName: Option<string>)

  datatype ConfirmView = ConfirmView(id: int, email: string, isEmailConfirmed: bool)

  datatype ResetView = ResetView(id: int, email: string)

  /** How long a password-reset token stays valid: one hour, in milliseconds. */
  const ResetTokenLifetime: int := 60 * 60 * 1000

  /** The access token issued to a user. */
  function AccessToken(u: User, issue: Payload -> string): string {
    issue(Payload(u.id, u.email))
  }

  /**
   * signup: creates a local account and reveals only its id, email and name;
   * a taken email is reported unchanged.
   */
  function Signup(t: Table, email: string, password: string, fullName: Option<string>,
                  confirmToken: string, hash: string -> string): (r: Step<SignupView>)
    ensures r.table == CreateLocalUser(t, email, password, fullName, confirmToken, hash).table
    ensures r.result.Err? <==> Held(t, ByEmail(email))
    ensures r.result.Err? ==> r.result.error == EmailInUse
    ensures r.result.Ok? ==> r.result.value == SignupView(|t| + 1, email, fullName)
  {
    var created := CreateLocalUser(t, email, password, fullName, confirmToken, hash);
    match created.result
    case Err(e) => Step(Err(e), created.table)
    case Ok(user) => Step(Ok(SignupView(user.id, user.email, user.fullName)), created.table)
  }

  /**
   * login: rejects an unknown email, an account with no (or an empty) password
   * hash and a password that does not verify, all with the same error;
   * otherwise issues a token for the user's id and email.
   */
  function Login(t: Table, email: string, password: string,
                 verify: (string, string) -> bool, issue: Payload -> string): (r: Result<string>)
    ensures r.Err? ==> r.error == InvalidCredentials
    ensures !Held(t, ByEmail(email)) ==> r.Err?
    ensures r.Ok? <==>
      exists i :: IsFirst(t, ByEmail(email), i)
        && t[i].passwordHash.Some? && t[i].passwordHash.value != ""
        && verify(password, t[i].passwordHash.value)
    ensures r.Ok? ==>
      exists i :: IsFirst(t, ByEmail(email), i) && r.value == issue(Payload(t[i].id, email))
  {
    match FindByEmail(t, email)
    case None => Err(InvalidCredentials)
    case Some(user) =>
      if user.passwordHash.None? || user.passwordHash.value == "" then Err(InvalidCredentials)
      else if !verify(password, user.passwordHash.value) then Err(InvalidCredentials)
      else Ok(AccessToken(user, issue))
  }

  /** confirmEmail: consumes the confirm token and reports the now-confirmed account. */
  function ConfirmEmail(t: Table, token: string): (r: Step<ConfirmView>)
    ensures r.table == MarkEmailConfirmed(t, token).table
    ensures r.result.Err? <==> !Held(t, ByConfirmToken(token))
    ensures r.result.Err? ==> r.result.error == InvalidToken
    ensures r.result.Ok? ==>
      r.result.value.isEmailConfirmed
      && exists i :: IsFirst(t, ByConfirmToken(token), i)
           && r.result.value.id == t[i].id && r.result.value.email == t[i].email
  {
    var confirmed := MarkEmailConfirmed(t, token);
    match confirmed.result
    case Err(e) => Step(Err(e), confirmed.table)
    case Ok(user) => Step(Ok(ConfirmView(user.id, user.email, user.isEmailConfirmed)), confirmed.table)
  }

  /**
   * forgotPassword: silently does nothing for an unknown email (it never fails,
   * so account existence is not revealed); otherwise stamps the token with an
   * expiry one hour after `now`.
   */
  function ForgotPassword(t: Table, email: string, token: string, now: int): (r: Table)
    ensures !Held(t, ByEmail(email)) ==> r == t
    ensures Held(t, ByEmail(email)) ==>
      exists i :: IsFirst(t, ByEmail(email), i)
        && r == t[i := t[i].(resetPasswordToken := Some(token), resetPasswordExpiresAt := Some(now + 3_600_000))]
    ensures UserTable.Valid(t) ==> UserTable.Valid(r)
  {
    match Find(t, ByEmail(email))
    case None => t
    case Some(i) =>
      t[i := t[i].(resetPasswordToken := Some(token), resetPasswordExpiresAt := Some(now + ResetTokenLifetime))]
  }

  /** resetPassword: sets the new password and reports the account, or propagates the failure. */
  function ResetPassword(t: Table, token: string, newPassword: string, now: int,
                         hash: string -> string): (r: Step<ResetView>)
    ensures r.table == UserTable.ResetPassword(t, token, newPassword, now, hash).table
    ensures r.result.Err? ==> r.result.error == InvalidOrExpiredToken
    ensures r.result.Ok? <==> UserTable.ResetPassword(t, token, newPassword, now, hash).result.Ok?
    ensures r.result.Ok? ==>
      exists i :: IsFirst(t, ByResetToken(token), i)
        && r.result.value == ResetView(t[i].id, t[i].email)
  {
    var reset := UserTable.ResetPassword(t, token, newPassword, now, hash);
    match reset.result
    case Err(e) => Step(Err(e), reset.table)
    case Ok(user) => Step(Ok(ResetView(user.id, user.email)), reset.table)
  }

  /** The name a Google login records: the given name, or the email when the name is absent or empty. */
  function GoogleFullName(email: string, fullName: Option<string>): (name: string)
    ensures fullName.None? || fullName == Some("") ==> name == email
    ensures fullName.Some? && fullName.value != "" ==> name == fullName.value
  {
    if fullName.Some? && fullName.value != "" then fullName.value else email
  }

  /**
   * loginWithGoogle (and signupWithGoogle): creates or links the account and
   * issues a token for the account that holds the googleId afterwards.
   */
  function LoginWithGoogle(t: Table, email: string, googleId: string, fullName: Option<string>,
                           issue: Payload -> string): (r: Step<string>)
    ensures r.table == CreateGoogleUser(t, email, googleId, GoogleFullName(email, fullName)).table
    ensures r.result.Ok?
    ensures exists i :: IsFirst(r.table, ByGoogleId(googleId), i)
              && r.result.value == issue(Payload(r.table[i].id, r.table[i].email))
  {
    var user := CreateGoogleUser(t, email, googleId, GoogleFullName(email, fullName));
    GoogleLoginIdempotent(t, email, email, googleId, GoogleFullName(email, fullName), GoogleFullName(email, fullName));
    Step(Ok(AccessToken(user.result.value, issue)), user.table)
  }

  // ---------------------------------------------------------------------------
  // Properties that relate several calls
  // ---------------------------------------------------------------------------

  /** Signing up twice with one email: the second attempt fails and changes nothing. */
  lemma SignupTwiceFails(t: Table, email: string, password: string, fullName: Option<string>, token: string,
                         password2: string, fullName2: Option<string>, token2: string, hash: string -> string)
    ensures var first := Signup(t, email, password, fullName, token, hash);
            Signup(first.table, email, password2, fullName2, token2, hash) == Step(Err(EmailInUse), first.table)
  {
    var first := Signup(t, email, password, fullName, token, hash);
    if !Held(t, ByEmail(email)) {
      assert Holds(first.table[|t|], ByEmail(email));
    }
  }

  /**
   * A fresh local account can log in with its password, provided the hasher
   * and the checker agree on it and the hash is not empty.
   */
  lemma LoginAfterSignup(t: Table, email: string, password: string, fullName: Option<string>, token: string,
                         hash: string -> string, verify: (string, string) -> bool, issue: Payload -> string)
    requires !Held(t, ByEmail(email))
    requires verify(password, hash(password)) && hash(password) != ""
    ensures var after := Signup(t, email, password, fullName, token, hash).table;
            Login(after, email, password, verify, issue) == Ok(issue(Payload(|t| + 1, email)))
  {
    var after := Signup(t, email, password, fullName, token, hash).table;
    assert IsFirst(after, ByEmail(email), |t|);
    FindIsFirst(after, ByEmail(email), |t|);
  }

  /**
   * An account created by Google login has no password, so local login with
   * that email fails whatever password is given.
   */
  lemma GoogleOnlyAccountRejectsPasswords(t: Table, email: string, googleId: string, fullName: Option<string>,
                                          password: string, verify: (string, string) -> bool,
                                          issue: Payload -> string)
    requires !Held(t, ByGoogleId(googleId)) && !Held(t, ByEmail(email))
    ensures var after := LoginWithGoogle(t, email, googleId, fullName, issue).table;
            Login(after, email, password, verify, issue) == Err(InvalidCredentials)
  {
  }

  /**
   * After a successful reset, the account's email logs in with the new
   * password (emails are unique, so the login finds the reset account).
   */
  lemma LoginAfterReset(t: Table, token: string, newPassword: string, now: int,
                        hash: string -> string, verify: (string, string) -> bool, issue: Payload -> string)
    requires UserTable.Valid(t)
    requires verify(newPassword, hash(newPassword)) && hash(newPassword) != ""
    requires ResetPassword(t, token, newPassword, now, hash).result.Ok?
    ensures var r := ResetPassword(t, token, newPassword, now, hash);
            Login(r.table, r.result.value.email, newPassword, verify, issue)
              == Ok(issue(Payload(r.result.value.id, r.result.value.email)))
  {
  }

  /**
   * The one-hour window: a reset token issued by forgotPassword at time
   * `issuedAt`, held by no other account, is accepted at time `now` exactly when
   * `now` is at most one hour later (the last millisecond included).
   */
  lemma ResetWindowIsOneHour(t: Table, email: string, token: string, issuedAt: int,
                             password: string, now: int, hash: string -> string)
    requires UserTable.Valid(t) && Held(t, ByEmail(email)) && !Held(t, ByResetToken(token))
    ensures ResetPassword(ForgotPassword(t, email, token, issuedAt), token, password, now, hash).result.Ok?
            <==> now <= issuedAt + 3_600_000
  {
    var user := FindByEmail(t, email).value;
    ResetTokenWindow(t, user, token, issuedAt + ResetTokenLifetime, password, now, hash);
  }

  /** Google login is idempotent: a repeated call issues the same token and changes nothing. */
  lemma GoogleLoginTwice(t: Table, email: string, email2: string, googleId: string,
                         fullName: Option<string>, fullName2: Option<string>, issue: Payload -> string)
    ensures var first := LoginWithGoogle(t, email, googleId, fullName, issue);
            LoginWithGoogle(first.table, email2, googleId, fullName2, issue) == first
  {
  }
}
