/** The accounts of `UserService` and the password-reset tokens of
    `PasswordResetToken`. The user table becomes a map from id to user with
    an identity counter, the token table a map keyed by the token text,
    which the database keeps unique. The password encoder is not modelled:
    a caller passes the encoded password, and `matches` is the encoder's
    check of a raw password against a stored one. Random tokens and "now"
    are parameters too. */
module Users {
  import opened Wrappers
  import opened JavaText
  import Clock

  datatype User = User(
    username: string,
    email: string,
    password: string,
    role: string,
    enabled: bool,
    createdAt: Clock.DateTime,
    lastLogin: Option<Clock.DateTime>)

  /** A reset token of one user: when it expires and whether it was used. */
  datatype ResetToken = ResetToken(userId: nat, expiresAt: Clock.DateTime, used: bool)

  datatype Accounts = Accounts(users: map<nat, User>, nextId: nat, tokens: map<string, ResetToken>)

  // -------------------------------------------------------------- tokens

  /** `isExpired`: now is strictly after the expiry. */
  predicate IsExpired(t: ResetToken, now: Clock.DateTime) {
    Clock.IsAfter(now, t.expiresAt)
  }

  /** `isValid`: neither used nor expired. */
  predicate IsValid(t: ResetToken, now: Clock.DateTime) {
    !t.used && !IsExpired(t, now)
  }

  /** A token as it is persisted: `used` starts false, and a missing expiry
      becomes twenty-four hours after now. */
  function Persist(userId: nat, expiresAt: Option<Clock.DateTime>, now: Clock.DateTime): (r: ResetToken)
    requires Clock.Valid(now)
    ensures r.userId == userId && !r.used
    ensures expiresAt.Some? ==> r.expiresAt == expiresAt.value
    ensures expiresAt.None? ==> Clock.IsAfter(r.expiresAt, now) && r.expiresAt == Clock.PlusOneDayOfHours(now)
  {
    ResetToken(userId, if expiresAt.Some? then expiresAt.value else Clock.PlusOneDayOfHours(now), false)
  }

  /** A token is valid exactly up to and including the instant it expires,
      and never after it has been used. */
  lemma ValidUntilExpiry(t: ResetToken, now: Clock.DateTime)
    ensures IsValid(t, now) <==> !t.used && !Clock.IsBefore(t.expiresAt, now)
    ensures !t.used ==> IsValid(t, t.expiresAt)
  {
    Clock.BeforeIrreflexive(t.expiresAt);
  }

  /** A freshly persisted token without an expiry is valid when it is made. */
  lemma PersistedValid(userId: nat, now: Clock.DateTime)
    requires Clock.Valid(now)
    ensures IsValid(Persist(userId, None, now), now)
  {
    var t := Persist(userId, None, now);
    if Clock.IsAfter(now, t.expiresAt) {
      Clock.BeforeTransitive(now, t.expiresAt, now);
      Clock.BeforeIrreflexive(now);
    }
  }

  // ----------------------------------------------------------- invariant

  predicate UsernamesUnique(a: Accounts) {
    forall i, j :: i in a.users && j in a.users && a.users[i].username == a.users[j].username ==> i == j
  }

  predicate EmailsUnique(a: Accounts) {
    forall i, j :: i in a.users && j in a.users && a.users[i].email == a.users[j].email ==> i == j
  }

  /** The identity counter is ahead of every id, and every token belongs to
      a stored user, as the foreign key demands. */
  predicate Valid(a: Accounts) {
    && (forall id :: id in a.users ==> id < a.nextId)
    && (forall t :: t in a.tokens ==> a.tokens[t].userId in a.users)
    && UsernamesUnique(a)
    && EmailsUnique(a)
  }

  /** `existsByUsername`. */
  predicate UsernameTaken(a: Accounts, username: string) {
    exists id :: id in a.users && a.users[id].username == username
  }

  /** `existsByEmail`. */
  predicate EmailTaken(a: Accounts, email: string) {
    exists id :: id in a.users && a.users[id].email == email
  }

  /** `findByUsername`: the one user with that name. */
  function UserNamed(a: Accounts, username: string): (id: nat)
    requires UsernamesUnique(a) && UsernameTaken(a, username)
    ensures id in a.users && a.users[id].username == username
    ensures forall other :: other in a.users && a.users[other].username == username ==> other == id
  {
    var id :| id in a.users && a.users[id].username == username;
    id
  }

  // -------------------------------------------------------------- users

  const UsernameExists: string := "IllegalArgumentException: Username already exists"
  const EmailExists: string := "IllegalArgumentException: Email already exists"
  const UserNotFound: string := "IllegalArgumentException: User not found"
  const TokenTaken: string := "DataIntegrityViolationException: token"
  const UserHasTokens: string := "DataIntegrityViolationException: user_id"

  /** `createUser`: a taken username fails first, then a taken email;
      otherwise one new enabled user, with the role "USER" unless another
      is given. */
  function CreateUser(a: Accounts, username: string, email: string, encoded: string, role: Option<string>,
                      now: Clock.DateTime): (r: Result<(Accounts, nat)>)
    requires Valid(a)
    ensures UsernameTaken(a, username) ==> r == Err(UsernameExists)
    ensures !UsernameTaken(a, username) && EmailTaken(a, email) ==> r == Err(EmailExists)
    ensures r.Ok? <==> !UsernameTaken(a, username) && !EmailTaken(a, email)
    ensures r.Ok? ==> Valid(r.value.0) && r.value.1 !in a.users && r.value.0.tokens == a.tokens
    ensures r.Ok? ==> r.value.0.users.Keys == a.users.Keys + {r.value.1}
    ensures r.Ok? ==> forall id :: id in a.users ==> r.value.0.users[id] == a.users[id]
    ensures r.Ok? ==> var u := r.value.0.users[r.value.1];
                      && u.username == username && u.email == email && u.password == encoded
                      && u.enabled && u.role == (if role.Some? then role.value else "USER")
                      && u.createdAt == now && u.lastLogin.None?
  {
    if UsernameTaken(a, username) then Err(UsernameExists)
    else if EmailTaken(a, email) then Err(EmailExists)
    else
      var u := User(username, email, encoded, if role.Some? then role.value else "USER", true, now, None);
      Ok((a.(users := a.users[a.nextId := u], nextId := a.nextId + 1), a.nextId))
  }

  /** `updateUser`: an unknown id fails; a new email different from the
      current one fails when another user has it and is stored otherwise;
      the role and the enabled flag change only when given. */
  function UpdateUser(a: Accounts, id: int, email: Option<string>, role: Option<string>,
                      enabled: Option<bool>): (r: Result<Accounts>)
    requires Valid(a)
    ensures id < 0 || id as nat !in a.users ==> r == Err(UserNotFound)
    ensures r.Ok? ==> id >= 0 && id as nat in a.users
    ensures id >= 0 && id as nat in a.users ==>
              var u := a.users[id as nat];
              (r.Err? <==> email.Some? && email.value != u.email && EmailTaken(a, email.value))
    ensures r.Ok? ==> r.value.nextId == a.nextId && r.value.tokens == a.tokens
    ensures r.Ok? ==> r.value.users.Keys == a.users.Keys
    ensures r.Ok? ==> forall other :: other in a.users && other != id ==> r.value.users[other] == a.users[other]
    ensures r.Ok? ==> var u := a.users[id as nat]; var u' := r.value.users[id as nat];
                      && u'.email == (if email.Some? then email.value else u.email)
                      && u'.role == (if role.Some? then role.value else u.role)
                      && u'.enabled == (if enabled.Some? then enabled.value else u.enabled)
                      && u'.username == u.username && u'.password == u.password
  {
    if id < 0 || id as nat !in a.users then Err(UserNotFound)
    else
      var u := a.users[id as nat];
      if email.Some? && email.value != u.email && EmailTaken(a, email.value) then Err(EmailExists)
      else
        var u' := u.(email := if email.Some? then email.value else u.email,
                     role := if role.Some? then role.value else u.role,
                     enabled := if enabled.Some? then enabled.value else u.enabled);
        Ok(a.(users := a.users[id as nat := u']))
  }

  /** `changePassword`: false, changing nothing, for an unknown user or an
      old password the stored one does not match; otherwise the password is
      replaced. */
  function ChangePassword(a: Accounts, username: string, oldPassword: string, encodedNew: string,
                          matches: (string, string) -> bool): (r: (Accounts, bool))
    requires Valid(a)
    ensures r.1 <==> UsernameTaken(a, username) && matches(oldPassword, a.users[UserNamed(a, username)].password)
    ensures !r.1 ==> r.0 == a
    ensures r.1 ==> var id := UserNamed(a, username);
                    r.0 == a.(users := a.users[id := a.users[id].(password := encodedNew)])
  {
    if !UsernameTaken(a, username) then (a, false)
    else
      var id := UserNamed(a, username);
      if !matches(oldPassword, a.users[id].password) then (a, false)
      else (a.(users := a.users[id := a.users[id].(password := encodedNew)]), true)
  }

  /** `updateProfile`: false for an unknown user or an email another user
      has; a null or unchanged email succeeds without a write. */
  function UpdateProfile(a: Accounts, username: string, email: Option<string>): (r: (Accounts, bool))
    requires Valid(a)
    ensures !UsernameTaken(a, username) ==> r == (a, false)
    ensures UsernameTaken(a, username) ==>
              var u := a.users[UserNamed(a, username)];
              && (r.1 <==> email.None? || email.value == u.email || !EmailTaken(a, email.value))
              && (email.None? || email.value == u.email ==> r == (a, true))
    ensures r.0.users.Keys == a.users.Keys && r.0.nextId == a.nextId && r.0.tokens == a.tokens
    ensures r.1 && email.Some? ==> UsernameTaken(a, username) && r.0.users[UserNamed(a, username)].email == email.value
    ensures forall id :: id in a.users && a.users[id].username != username ==> r.0.users[id] == a.users[id]
    ensures Valid(r.0)
  {
    if !UsernameTaken(a, username) then (a, false)
    else
      var id := UserNamed(a, username);
      if email.Some? && email.value != a.users[id].email then
        if EmailTaken(a, email.value) then (a, false)
        else (a.(users := a.users[id := a.users[id].(email := email.value)]), true)
      else (a, true)
  }

  /** `deleteUser`: false for an unknown id; a user who still has reset
      tokens cannot go, as their foreign key refers to it; otherwise the
      user is removed. */
  function DeleteUser(a: Accounts, id: int): (r: Result<(Accounts, bool)>)
    requires Valid(a)
    ensures (id < 0 || id as nat !in a.users) ==> r == Ok((a, false))
    ensures r.Err? <==> id >= 0 && id as nat in a.users && exists t :: t in a.tokens && a.tokens[t].userId == id as nat
    ensures r.Ok? && r.value.1 ==> r.value.0 == a.(users := a.users - {id as nat})
    ensures r.Ok? ==> Valid(r.value.0)
  {
    if id < 0 || id as nat !in a.users then Ok((a, false))
    else if exists t :: t in a.tokens && a.tokens[t].userId == id as nat then Err(UserHasTokens)
    else Ok((a.(users := a.users - {id as nat}), true))
  }

  /** `updateLastLogin`: stamps a known user with now. */
  function UpdateLastLogin(a: Accounts, username: string, now: Clock.DateTime): (r: Accounts)
    requires Valid(a)
    ensures !UsernameTaken(a, username) ==> r == a
    ensures UsernameTaken(a, username) ==>
              var id := UserNamed(a, username);
              r == a.(users := a.users[id := a.users[id].(lastLogin := Some(now))])
  {
    if !UsernameTaken(a, username) then a
    else
      var id := UserNamed(a, username);
      a.(users := a.users[id := a.users[id].(lastLogin := Some(now))])
  }

  // ------------------------------------------------------- password reset

  /** The tokens of every other user. */
  function TokensOfOthers(tokens: map<string, ResetToken>, userId: nat): (r: map<string, ResetToken>)
    ensures forall t :: t in r <==> t in tokens && tokens[t].userId != userId
    ensures forall t :: t in r ==> r[t] == tokens[t]
  {
    map t | t in tokens && tokens[t].userId != userId :: tokens[t]
  }

  /** `createPasswordResetToken`: nothing unless the user exists and the
      email is theirs, ignoring case; then every earlier token of the user
      is deleted and one unused token expiring twenty-four hours later is
      issued. */
  function CreatePasswordResetToken(a: Accounts, username: string, email: string, token: string,
                                    now: Clock.DateTime): (r: Result<(Accounts, Option<ResetToken>)>)
    requires Valid(a) && Clock.Valid(now)
    ensures !UsernameTaken(a, username) ==> r == Ok((a, None))
    ensures UsernameTaken(a, username) && !EqualsIgnoreCase(a.users[UserNamed(a, username)].email, email) ==>
              r == Ok((a, None))
    ensures r.Ok? && r.value.1.Some? ==>
              && UsernameTaken(a, username)
              && EqualsIgnoreCase(a.users[UserNamed(a, username)].email, email)
              && r.value.1.value == ResetToken(UserNamed(a, username), Clock.PlusOneDayOfHours(now), false)
              && r.value.0 == a.(tokens := TokensOfOthers(a.tokens, UserNamed(a, username))[token := r.value.1.value])
    ensures r.Err? ==> token in TokensOfOthers(a.tokens, UserNamed(a, username))
  {
    if !UsernameTaken(a, username) then Ok((a, None))
    else
      var id := UserNamed(a, username);
      if !EqualsIgnoreCase(a.users[id].email, email) then Ok((a, None))
      else
        var rest := TokensOfOthers(a.tokens, id);
        if token in rest then Err(TokenTaken)
        else
          var t := ResetToken(id, Clock.PlusOneDayOfHours(now), false);
          Ok((a.(tokens := rest[token := t]), Some(t)))
  }

  /** `resetPassword`: false, changing nothing, for an unknown or invalid
      token; otherwise the token's user gets the new password and the token
      is marked used. */
  function ResetPassword(a: Accounts, token: string, encodedNew: string, now: Clock.DateTime): (r: (Accounts, bool))
    requires Valid(a)
    ensures r.1 <==> token in a.tokens && IsValid(a.tokens[token], now)
    ensures !r.1 ==> r.0 == a
    ensures r.1 ==> var id := a.tokens[token].userId;
                    && r.0.users == a.users[id := a.users[id].(password := encodedNew)]
                    && r.0.tokens == a.tokens[token := a.tokens[token].(used := true)]
                    && r.0.nextId == a.nextId
  {
    if token !in a.tokens || !IsValid(a.tokens[token], now) then (a, false)
    else
      var id := a.tokens[token].userId;
      (Accounts(a.users[id := a.users[id].(password := encodedNew)], a.nextId,
                a.tokens[token := a.tokens[token].(used := true)]), true)
  }

  /** `cleanupExpiredTokens`: `deleteByExpiresAtBefore(now)`. */
  function CleanupExpiredTokens(a: Accounts, now: Clock.DateTime): (r: Accounts)
    ensures r.users == a.users && r.nextId == a.nextId
    ensures forall t :: t in r.tokens ==> t in a.tokens && r.tokens[t] == a.tokens[t]
    ensures forall t :: t in a.tokens ==> (t in r.tokens <==> !Clock.IsBefore(a.tokens[t].expiresAt, now))
  {
    a.(tokens := map t | t in a.tokens && !Clock.IsBefore(a.tokens[t].expiresAt, now) :: a.tokens[t])
  }

  // ------------------------------------------------------------ properties

  lemma CreatePasswordResetTokenValid(a: Accounts, username: string, email: string, token: string, now: Clock.DateTime)
    requires Valid(a) && Clock.Valid(now)
    requires CreatePasswordResetToken(a, username, email, token, now).Ok?
    ensures Valid(CreatePasswordResetToken(a, username, email, token, now).value.0)
  {
  }

  lemma ResetPasswordValid(a: Accounts, token: string, encodedNew: string, now: Clock.DateTime)
    requires Valid(a)
    ensures Valid(ResetPassword(a, token, encodedNew, now).0)
  {
    var (a', ok) := ResetPassword(a, token, encodedNew, now);
    if ok {
      SameNamesValid(a, a');
    }
  }

  lemma ChangePasswordValid(a: Accounts, username: string, oldPassword: string, encodedNew: string,
                            matches: (string, string) -> bool)
    requires Valid(a)
    ensures Valid(ChangePassword(a, username, oldPassword, encodedNew, matches).0)
  {
    var (a', ok) := ChangePassword(a, username, oldPassword, encodedNew, matches);
    if ok {
      SameNamesValid(a, a');
    }
  }

  /** Keeping every user's name and email, and every token's owner, keeps
      the invariant. */
  lemma SameNamesValid(a: Accounts, a': Accounts)
    requires Valid(a) && a'.nextId == a.nextId && a'.users.Keys == a.users.Keys
    requires forall i :: i in a.users ==> a'.users[i].username == a.users[i].username && a'.users[i].email == a.users[i].email
    requires forall t :: t in a'.tokens ==> a'.tokens[t].userId in a.users
    ensures Valid(a')
  {
  }

  lemma UpdateUserValid(a: Accounts, id: int, email: Option<string>, role: Option<string>, enabled: Option<bool>)
    requires Valid(a)
    requires UpdateUser(a, id, email, role, enabled).Ok?
    ensures Valid(UpdateUser(a, id, email, role, enabled).value)
  {
  }

  lemma CleanupValid(a: Accounts, now: Clock.DateTime)
    requires Valid(a)
    ensures Valid(CleanupExpiredTokens(a, now))
  {
  }

  /** After a cleanup no remaining token is expired, and every token that
      is still valid survives it. */
  lemma CleanupKeepsValidTokens(a: Accounts, now: Clock.DateTime)
    ensures forall t :: t in CleanupExpiredTokens(a, now).tokens ==> !IsExpired(CleanupExpiredTokens(a, now).tokens[t], now)
    ensures forall t :: t in a.tokens && IsValid(a.tokens[t], now) ==> t in CleanupExpiredTokens(a, now).tokens
  {
  }

  /** A token resets a password at most once: the successful reset marks it
      used, so any later attempt with it fails and changes nothing. */
  lemma ResetOnlyOnce(a: Accounts, token: string, p1: string, p2: string, t1: Clock.DateTime, t2: Clock.DateTime)
    requires Valid(a)
    requires ResetPassword(a, token, p1, t1).1
    ensures var a' := ResetPassword(a, token, p1, t1).0;
            Valid(a') && ResetPassword(a', token, p2, t2) == (a', false)
  {
    ResetPasswordValid(a, token, p1, t1);
  }

  /** The request flow: a token issued to a user resets that user's password
      at once, and it is the user's only token. */
  lemma IssueThenReset(a: Accounts, username: string, email: string, token: string, encodedNew: string,
                       now: Clock.DateTime)
    requires Valid(a) && Clock.Valid(now)
    requires UsernameTaken(a, username) && EqualsIgnoreCase(a.users[UserNamed(a, username)].email, email)
    requires token !in a.tokens
    ensures var r := CreatePasswordResetToken(a, username, email, token, now);
            && r.Ok? && r.value.1.Some?
            && (forall t :: t in r.value.0.tokens && r.value.0.tokens[t].userId == UserNamed(a, username) ==> t == token)
            && Valid(r.value.0)
            && var (a2, ok) := ResetPassword(r.value.0, token, encodedNew, now);
               && ok && a2.users[UserNamed(a, username)].password == encodedNew
  {
    var id := UserNamed(a, username);
    PersistedValid(id, now);
  }

  /** With an encoder whose `matches` accepts what it produced, the new
      password is the one a second change must present. */
  lemma ChangePasswordThenOld(a: Accounts, username: string, oldPassword: string, newPassword: string,
                              encodedNew: string, newer: string, matches: (string, string) -> bool)
    requires Valid(a) && matches(newPassword, encodedNew)
    requires ChangePassword(a, username, oldPassword, encodedNew, matches).1
    ensures var a' := ChangePassword(a, username, oldPassword, encodedNew, matches).0;
            Valid(a') && ChangePassword(a', username, newPassword, newer, matches).1
  {
    ChangePasswordValid(a, username, oldPassword, encodedNew, matches);
    var a' := ChangePassword(a, username, oldPassword, encodedNew, matches).0;
    var id := UserNamed(a, username);
    assert a'.users[id].username == username;
  }

  /** A second user with the same name or email is refused. */
  lemma CreateUserTwice(a: Accounts, username: string, email: string, e1: string, e2: string,
                        email2: string, t1: Clock.DateTime, t2: Clock.DateTime)
    requires Valid(a)
    requires CreateUser(a, username, email, e1, None, t1).Ok?
    ensures var a' := CreateUser(a, username, email, e1, None, t1).value.0;
            && CreateUser(a', username, email2, e2, None, t2) == Err(UsernameExists)
  {
    var (a', id) := CreateUser(a, username, email, e1, None, t1).value;
    assert a'.users[id].username == username;
  }
}
