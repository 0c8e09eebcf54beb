/**
 * The authentication service: orchestrates the users service, a password
 * checker and a token issuer. Its methods change the users table only
 * through the users service and are proved to behave as the AuthFlow
 * functions describe.
 */
module Auth {
  import opened Common
  import opened UserTable
  import opened Users
  import opened AuthFlow

  class AuthService {
    const usersService: UsersService
    /** The password checker: does this password match this stored hash? */
    const verify: (string, string) -> bool
    /** The session-token signer. */
    const issue: Payload -> string

    constructor (usersService: UsersService, verify: (string, string) -> bool, issue: Payload -> string)
      ensures this.usersService == usersService && this.verify == verify && this.issue == issue
    {
      this.usersService := usersService;
      this.verify := verify;
      this.issue := issue;
    }

    /** signup; `confirmToken` stands for the freshly generated random token. */
    method Signup(email: string, password: string, fullName: Option<string>, confirmToken: string)
      returns (r: Result<SignupView>)
      requires usersService.Valid()
      modifies usersService
      ensures usersService.Valid()
      ensures Step(r, usersService.users)
              == AuthFlow.Signup(old(usersService.users), email, password, fullName, confirmToken, usersService.hash)
    {
      var user := usersService.CreateLocalUser(email, password, fullName, confirmToken);
      if user.Err? {
        return Err(user.error);
      }
      r := Ok(SignupView(user.value.id, user.value.email, user.value.fullName));
    }

    method Login(email: string, password: string) returns (r: Result<string>)
      ensures r == AuthFlow.Login(usersService.users, email, password, verify, issue)
    {
      var user := usersService.FindByEmail(email);
      if user.None? || user.value.passwordHash.None? || user.value.passwordHash.value == "" {
        return Err(InvalidCredentials);
      }
      var isValid := verify(password, user.value.passwordHash.value);
      if !isValid {
        return Err(InvalidCredentials);
      }
      var payload := Payload(user.value.id, user.value.email);
      r := Ok(issue(payload));
    }

    method ConfirmEmail(token: string) returns (r: Result<ConfirmView>)
      requires usersService.Valid()
      modifies usersService
      ensures usersService.Valid()
      ensures Step(r, usersService.users) == AuthFlow.ConfirmEmail(old(usersService.users), token)
    {
      var user := usersService.MarkEmailConfirmed(token);
      if user.Err? {
        return Err(user.error);
      }
      r := Ok(ConfirmView(user.value.id, user.value.email, user.value.isEmailConfirmed));
    }

    /** forgotPassword; `token` is the fresh random token and `now` the current time in milliseconds. */
    method ForgotPassword(email: string, token: string, now: int)
      requires usersService.Valid()
      modifies usersService
      ensures usersService.Valid()
      ensures usersService.users == AuthFlow.ForgotPassword(old(usersService.users), email, token, now)
    {
      var user := usersService.FindByEmail(email);
      if user.None? {
        return;
      }
      var expiresAt := now + ResetTokenLifetime;
      var _ := usersService.SetResetPasswordToken(user.value, token, expiresAt);
    }

    method ResetPassword(token: string, newPassword: string, now: int) returns (r: Result<ResetView>)
      requires usersService.Valid()
      modifies usersService
      ensures usersService.Valid()
      ensures Step(r, usersService.users)
              == AuthFlow.ResetPassword(old(usersService.users), token, newPassword, now, usersService.hash)
    {
      var user := usersService.ResetPassword(token, newPassword, now);
      if user.Err? {
        return Err(user.error);
      }
      r := Ok(ResetView(user.value.id, user.value.email));
    }

    method LoginWithGoogle(email: string, googleId: string, fullName: Option<string>) returns (r: Result<string>)
      requires usersService.Valid()
      modifies usersService
      ensures usersService.Valid()
      ensures Step(r, usersService.users)
              == AuthFlow.LoginWithGoogle(old(usersService.users), email, googleId, fullName, issue)
    {
      var name := GoogleFullName(email, fullName);
      var user := usersService.CreateGoogleUser(email, googleId, name);
      var payload := Payload(user.value.id, user.value.email);
      r := Ok(issue(payload));
    }

    /** signupWithGoogle is the same operation as loginWithGoogle. */
    method SignupWithGoogle(email: string, googleId: string, fullName: Option<string>) returns (r: Result<string>)
      requires usersService.Valid()
      modifies usersService
      ensures usersService.Valid()
      ensures Step(r, usersService.users)
              == AuthFlow.LoginWithGoogle(old(usersService.users), email, googleId, fullName, issue)
    {
      r := LoginWithGoogle(email, googleId, fullName);
    }
  }
}
