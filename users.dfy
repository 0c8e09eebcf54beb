/**
 * The users service: the account operations as methods over a mutable users
 * table. Each method looks a row up, changes it and saves it back, and is
 * proved to do exactly what the matching UserTable function describes.
 */
module Users {
  import opened Common
  import opened UserTable

  class UsersService {
    /** The users table (the repository's rows). */
    var users: Table
    /** The password hasher: an abstract one-way function. */
    const hash: string -> string

    ghost predicate Valid()
      reads this
    {
      UserTable.Valid(users)
    }

    constructor (initial: Table, hash: string -> string)
      requires UserTable.Valid(initial)
      ensures Valid() && users == initial && this.hash == hash
    {
      users := initial;
      this.hash := hash;
    }

    method FindByEmail(email: string) returns (r: Option<User>)
      ensures r == UserTable.FindByEmail(users, email)
    {
      r := UserTable.FindByEmail(users, email);
    }

    method FindById(id: int) returns (r: Option<User>)
      ensures r == UserTable.FindById(users, id)
    {
      r := UserTable.FindById(users, id);
    }

    method CreateLocalUser(email: string, password: string, fullName: Option<string>, emailConfirmToken: string)
      returns (r: Result<User>)
      requires Valid()
      modifies this
      ensures Valid()
      ensures Step(r, users) == UserTable.CreateLocalUser(old(users), email, password, fullName, emailConfirmToken, hash)
    {
      var existing := FindByEmail(email);
      if existing.Some? {
        return Err(EmailInUse);
      }
      var passwordHash := hash(password);
      var user := User(id := |users| + 1, email := email, fullName := fullName,
                       passwordHash := Some(passwordHash), googleId := None,
                       isEmailConfirmed := false, emailConfirmToken := Some(emailConfirmToken),
                       resetPasswordToken := None, resetPasswordExpiresAt := None);
      users := users + [user];
      r := Ok(user);
    }

    method CreateGoogleUser(email: string, googleId: string, fullName: string) returns (r: Result<User>)
      requires Valid()
      modifies this
      ensures Valid()
      ensures Step(r, users) == UserTable.CreateGoogleUser(old(users), email, googleId, fullName)
    {
      var byGoogle := Find(users, ByGoogleId(googleId));
      if byGoogle.Some? {
        return Ok(users[byGoogle.value]);
      }
      var byEmail := Find(users, ByEmail(email));
      if byEmail.Some? {
        var user := users[byEmail.value];
        user := user.(googleId := Some(googleId));
        user := user.(isEmailConfirmed := true);
        users := users[byEmail.value := user];
        return Ok(user);
      }
      var user := User(id := |users| + 1, email := email, fullName := Some(fullName),
                       passwordHash := None, googleId := Some(googleId),
                       isEmailConfirmed := true, emailConfirmToken := None,
                       resetPasswordToken := None, resetPasswordExpiresAt := None);
      users := users + [user];
      r := Ok(user);
    }

    method MarkEmailConfirmed(token: string) returns (r: Result<User>)
      requires Valid()
      modifies this
      ensures Valid()
      ensures Step(r, users) == UserTable.MarkEmailConfirmed(old(users), token)
    {
      var found := Find(users, ByConfirmToken(token));
      if found.None? {
        return Err(InvalidToken);
      }
      var user := users[found.value];
      user := user.(isEmailConfirmed := true);
      user := user.(emailConfirmToken := None);
      users := users[found.value := user];
      r := Ok(user);
    }

    method SetResetPasswordToken(user: User, token: string, expiresAt: int) returns (saved: User)
      requires Valid()
      requires 1 <= user.id <= |users| && users[user.id - 1] == user
      modifies this
      ensures Valid()
      ensures users == UserTable.SetResetPasswordToken(old(users), user, token, expiresAt)
      ensures saved == users[user.id - 1]
    {
      saved := user.(resetPasswordToken := Some(token));
      saved := saved.(resetPasswordExpiresAt := Some(expiresAt));
      users := users[user.id - 1 := saved];
    }

    method ResetPassword(token: string, newPassword: string, now: int) returns (r: Result<User>)
      requires Valid()
      modifies this
      ensures Valid()
      ensures Step(r, users) == UserTable.ResetPassword(old(users), token, newPassword, now, hash)
    {
      var found := Find(users, ByResetToken(token));
      if found.None? {
        return Err(InvalidOrExpiredToken);
      }
      var user := users[found.value];
      if user.resetPasswordExpiresAt.None? || user.resetPasswordExpiresAt.value < now {
        return Err(InvalidOrExpiredToken);
      }
      var passwordHash := hash(newPassword);
      user := user.(passwordHash := Some(passwordHash));
      user := user.(resetPasswordToken := None);
      user := user.(resetPasswordExpiresAt := None);
      users := users[found.value := user];
      r := Ok(user);
    }

    method Update(id: int, fullName: Option<string>) returns (r: Result<User>)
      requires Valid()
      modifies this
      ensures Valid()
      ensures Step(r, users) == UserTable.Update(old(users), id, fullName)
    {
      var found := FindById(id);
      if found.None? {
        return Err(UserNotFound);
      }
      var user := found.value;
      if fullName.Some? {
        user := user.(fullName := fullName);
      }
      users := users[id - 1 := user];
      r := Ok(user);
    }
  }
}
