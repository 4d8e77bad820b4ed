/** The authentication handlers of the backend. Each handler is a method
    over the user collection, and its effect is given by a pure function
    from the request and the collection before the call to the response and
    the collection after it; the lemmas below are stated on those functions.
    Times are passed in, and so are the tokens `generate*Token` would mint
    and the behaviour of the mail transport. */
module AuthController {
  import opened Wrappers
  import opened Js
  import opened Store
  import opened UserModel
  import opened Mailer

  /** The process settings the handlers read. */
  datatype Env = Env(jwtSecret: string, frontendUrl: string)

  // ---------------------------------------------------------------- tokens

  /** A signed session token: the payload `{ userId }`, the key that signed
      it and its lifetime. Signing itself is not modelled. */
  datatype Token = Jwt(userId: Id, key: string, expiresIn: string)

  /** `process.env.JWT_SECRET || 'your-secret-key'`. */
  function SigningKey(env: Env): (k: string)
    ensures k != ""
    ensures env.jwtSecret != "" ==> k == env.jwtSecret
  {
    if env.jwtSecret != "" then env.jwtSecret else "your-secret-key"
  }

  /** `generateToken(userId)`. */
  function GenerateToken(userId: Id, env: Env): Token {
    Jwt(userId, SigningKey(env), "7d")
  }

  /** The subject a token yields when checked against `key`. */
  function TokenSubject(t: Token, key: string): Option<Id> {
    if t.key == key then Some(t.userId) else None
  }

  /** A token decodes, under the key it was signed with, to the id it was
      issued for, and carries the seven-day lifetime. */
  lemma TokenRoundTrip(userId: Id, env: Env)
    ensures TokenSubject(GenerateToken(userId, env), SigningKey(env)) == Some(userId)
    ensures GenerateToken(userId, env).expiresIn == "7d"
  {
  }

  // ------------------------------------------------------------ responses

  datatype EmailStatus = Sent | Skipped | Failed

  /** The `user` object of a success payload. A field is `None` when the
      handler does not put it in the payload. There is no password field. */
  datatype UserView = UserView(
    id: Id, name: string, email: string,
    isEmailVerified: Option<bool>, avatar: Option<string>, isGuest: Option<bool>)

  datatype Body =
    | Refused(reason: string)
    | Accepted(message: Option<string>, token: Option<Token>, user: Option<UserView>,
               emailVerificationStatus: Option<EmailStatus>)

  datatype Response = Response(status: int, body: Body)

  /** A handler's response together with the collection it leaves. */
  datatype Outcome = Outcome(response: Response, users: seq<User>)

  function Refuse(status: int, message: string): Response {
    Response(status, Refused(message))
  }

  /** The `user` object of the register and login payloads. */
  function AccountView(id: Id, u: User): UserView {
    UserView(id, u.name, u.email, Some(u.isEmailVerified), u.avatar, None)
  }

  const MissingFields := "Please provide all required fields"
  const ShortPassword := "Password must be at least 6 characters long"
  const AlreadyExists := "User already exists with this email"
  const RegisterFailed := "Registration failed. Please try again."
  const MissingCredentials := "Please provide email and password"
  const InvalidCredentials := "Invalid email or password"
  const LoginFailed := "Login failed. Please try again."
  const LoginSucceeded := "Login successful! Welcome back!"
  const GuestGranted := "Guest access granted! Explore EnglishAI Chat!"
  const GuestFailed := "Guest access failed. Please try again."
  const MissingEmail := "Please provide your email address"
  const UnknownEmail := "No user found with this email address"
  const ResetEmailSent := "Password reset email sent successfully!"
  const ResetEmailNotSent := "Failed to send reset email. Please try again."
  const ResetFailed := "Password reset failed. Please try again."
  const PasswordsDiffer := "Passwords do not match"
  const InvalidResetToken := "Invalid or expired reset token"
  const ResetSucceeded := "Password reset successful! You can now login with your new password."
  const UserNotFound := "User not found"

  // ------------------------------------------------------------- register

  /** A token minted by `generateEmailVerificationToken` or
      `generatePasswordResetToken`, with the expiry those write on the
      record. */
  datatype Minted = Minted(token: string, expires: int)

  /** The verification-email status register reports, from what
      `sendEmail` returned. */
  function VerificationStatus(r: MailResult): EmailStatus {
    if r.messageId == "skipped" then Skipped
    else if r.error.Some? && r.error.value != "" then Failed
    else Sent
  }

  function RegistrationMessage(s: EmailStatus): string {
    match s
    case Skipped => "Registration successful! You can start using EnglishAI Chat immediately."
    case Failed => "Registration successful! However, we couldn't send the verification email. You can still use all features of EnglishAI Chat."
    case Sent => "Registration successful! Please check your email to verify your account."
  }

  /** The record register creates. */
  function Registrant(name: string, email: string, password: string, minted: Minted): User {
    NewUser(name, email, Some(Hash(password))).(
      emailVerificationToken := Some(minted.token),
      emailVerificationExpires := Some(minted.expires))
  }

  function RegisterSpec(users: seq<User>, name: string, email: string, password: string,
                        minted: Minted, mail: Transport, env: Env): Outcome
  {
    if name == "" || email == "" || password == "" then Outcome(Refuse(400, MissingFields), users)
    else if Utf16Length(password) < 6 then Outcome(Refuse(400, ShortPassword), users)
    else if FindByEmail(users, email).Some? then Outcome(Refuse(400, AlreadyExists), users)
    else
      var u := Registrant(name, email, password, minted);
      match SaveNew(users, u)
      case Failure(_) => Outcome(Refuse(500, RegisterFailed), users)
      case Success(after) =>
        var id := |users|;
        var status := VerificationStatus(AwaitSendEmail(mail).result);
        Outcome(Response(201, Accepted(Some(RegistrationMessage(status)), Some(GenerateToken(id, env)),
                                       Some(AccountView(id, u)), Some(status))), after)
  }

  method Register(store: UserStore, name: string, email: string, password: string,
                  minted: Minted, mail: Transport, env: Env) returns (resp: Response)
    requires store.Valid()
    modifies store
    ensures store.Valid()
    ensures Outcome(resp, store.users) == RegisterSpec(old(store.users), name, email, password, minted, mail, env)
  {
    if name == "" || email == "" || password == "" {
      return Refuse(400, MissingFields);
    }
    if Utf16Length(password) < 6 {
      return Refuse(400, ShortPassword);
    }
    var existing := store.FindOne((u: User) => u.email == email);
    if existing.Some? {
      return Refuse(400, AlreadyExists);
    }
    var user := Registrant(name, email, password, minted);
    var saved := store.Insert(user);
    if saved.Failure? {
      return Refuse(500, RegisterFailed);
    }
    var status := Sent;
    var attempt := AwaitSendEmail(mail);
    if attempt.Returned? {
      if attempt.result.messageId == "skipped" {
        status := Skipped;
      } else if attempt.result.error.Some? && attempt.result.error.value != "" {
        status := Failed;
      } else {
        status := Sent;
      }
    } else {
      status := Failed;
    }
    var token := GenerateToken(saved.value, env);
    resp := Response(201, Accepted(Some(RegistrationMessage(status)), Some(token),
                                   Some(AccountView(saved.value, user)), Some(status)));
  }

  /** The guards run in order, before the collection is consulted, and a
      refused registration writes nothing. */
  lemma RegisterGuards(users: seq<User>, name: string, email: string, password: string,
                       minted: Minted, mail: Transport, env: Env)
    ensures var o := RegisterSpec(users, name, email, password, minted, mail, env);
      && (name == "" || email == "" || password == "" ==> o == Outcome(Refuse(400, MissingFields), users))
      && (name != "" && email != "" && password != "" && Utf16Length(password) < 6 ==> o == Outcome(Refuse(400, ShortPassword), users))
      && (name != "" && email != "" && Utf16Length(password) >= 6 && FindByEmail(users, email).Some? ==>
            o == Outcome(Refuse(400, AlreadyExists), users))
      && (o.response.status != 201 ==> o.users == users)
  {
  }

  /** A registration that passes the guards always succeeds: the record is
      appended under the next id, the response carries a token for that id
      and the email status, whatever the outcome of the email dispatch. */
  lemma RegisterSucceeds(users: seq<User>, name: string, email: string, password: string,
                         minted: Minted, mail: Transport, env: Env)
    requires WellFormed(users)
    requires name != "" && email != "" && Utf16Length(password) >= 6
    requires forall k :: 0 <= k < |users| ==> users[k].email != email
    ensures var o := RegisterSpec(users, name, email, password, minted, mail, env);
      && o.response.status == 201
      && o.users == users + [Registrant(name, email, password, minted)]
      && WellFormed(o.users)
      && o.response.body.token == Some(GenerateToken(|users|, env))
      && o.response.body.emailVerificationStatus == Some(VerificationStatus(SendEmail(mail)))
      && o.response.body.user == Some(UserView(|users|, name, email, Some(false), None, None))
  {
  }

  /** How the email status depends on the transport: `skipped` exactly when
      sending is not configured (or a delivered message happens to carry
      the id `skipped`), `failed` exactly when the transport threw with a
      non-empty message, `sent` otherwise. */
  lemma EmailStatusClassification(t: Transport)
    ensures VerificationStatus(SendEmail(t)) == Skipped <==>
      t.NotConfigured? || t == Delivered("skipped")
    ensures VerificationStatus(SendEmail(t)) == Failed <==>
      t.TransportError? && t.message != ""
    ensures VerificationStatus(SendEmail(t)) == Sent <==>
      (t.Delivered? && t.messageId != "skipped") || t == TransportError("")
  {
  }

  // ---------------------------------------------------------------- login

  function LoginSpec(users: seq<User>, email: string, password: string, now: int, env: Env): Outcome {
    if email == "" || password == "" then Outcome(Refuse(400, MissingCredentials), users)
    else match FindByEmail(users, email)
      case None => Outcome(Refuse(401, InvalidCredentials), users)
      case Some(id) =>
        if !PasswordMatches(password, users[id].password) then Outcome(Refuse(401, InvalidCredentials), users)
        else
          var u := users[id].(lastLogin := Some(now));
          match SaveAt(users, id, u)
          case Failure(_) => Outcome(Refuse(500, LoginFailed), users)
          case Success(after) =>
            Outcome(Response(200, Accepted(Some(LoginSucceeded), Some(GenerateToken(id, env)),
                                           Some(AccountView(id, u)), None)), after)
  }

  method Login(store: UserStore, email: string, password: string, now: int, env: Env)
    returns (resp: Response)
    requires store.Valid()
    modifies store
    ensures store.Valid()
    ensures Outcome(resp, store.users) == LoginSpec(old(store.users), email, password, now, env)
  {
    if email == "" || password == "" {
      return Refuse(400, MissingCredentials);
    }
    var found := store.FindOne((u: User) => u.email == email);
    if found.None? {
      return Refuse(401, InvalidCredentials);
    }
    var id := found.value;
    var user := store.users[id];
    if !PasswordMatches(password, user.password) {
      return Refuse(401, InvalidCredentials);
    }
    user := user.(lastLogin := Some(now));
    var saved := store.Save(id, user);
    if saved.Failure? {
      return Refuse(500, LoginFailed);
    }
    resp := Response(200, Accepted(Some(LoginSucceeded), Some(GenerateToken(id, env)),
                                   Some(AccountView(id, user)), None));
  }

  /** An unknown email and a wrong password give the same 401 response, and
      neither writes anything. */
  lemma LoginFailuresAlike(users: seq<User>, email: string, password: string, now: int, env: Env)
    requires email != "" && password != ""
    requires FindByEmail(users, email).None? ||
             !PasswordMatches(password, users[FindByEmail(users, email).value].password)
    ensures LoginSpec(users, email, password, now, env) == Outcome(Refuse(401, InvalidCredentials), users)
  {
  }

  /** With the right password, login records the time of the login on that
      record (and nothing else) and returns a token for it. */
  lemma LoginSucceeds(users: seq<User>, id: Id, password: string, now: int, env: Env)
    requires WellFormed(users) && id < |users|
    requires password != "" && PasswordMatches(password, users[id].password)
    ensures var o := LoginSpec(users, users[id].email, password, now, env);
      && o.response.status == 200
      && o.users == users[id := users[id].(lastLogin := Some(now))]
      && o.response.body.token == Some(GenerateToken(id, env))
  {
    FindByEmailUnique(users, id);
    SaveAtSameEmail(users, id, users[id].(lastLogin := Some(now)));
  }

  /** An account just registered can be logged into at once with the same
      email and password: the login answers 200 with a token for the new
      id and records the time on the new record only. */
  lemma RegisterThenLogin(users: seq<User>, name: string, email: string, password: string,
                          minted: Minted, mail: Transport, env: Env, now: int)
    requires WellFormed(users)
    requires name != "" && email != "" && Utf16Length(password) >= 6
    requires forall k :: 0 <= k < |users| ==> users[k].email != email
    ensures var account := Registrant(name, email, password, minted);
      && RegisterSpec(users, name, email, password, minted, mail, env).users == users + [account]
      && var o := LoginSpec(users + [account], email, password, now, env);
      && o.response.status == 200
      && o.response.body.token == Some(GenerateToken(|users|, env))
      && o.users == users + [account.(lastLogin := Some(now))]
  {
    var account := Registrant(name, email, password, minted);
    RegisterSucceeds(users, name, email, password, minted, mail, env);
    var after := users + [account];
    assert after[|users|].email == email;
    LoginSucceeds(after, |users|, password, now, env);
    assert after[|users| := account.(lastLogin := Some(now))] == users + [account.(lastLogin := Some(now))];
  }

  /** A record without a password (guests and social-login accounts) can
      never be logged into. */
  lemma PasswordlessCannotLogin(users: seq<User>, id: Id, password: string, now: int, env: Env)
    requires WellFormed(users) && id < |users| && users[id].password.None?
    ensures LoginSpec(users, users[id].email, password, now, env).response.status in {400, 401}
  {
    FindByEmailUnique(users, id);
  }

  // ---------------------------------------------------- social hand-off

  /** Where the social-login hand-off sends the browser. */
  datatype Redirect = AuthSuccess(frontendUrl: string, token: Token) | AuthError(frontendUrl: string)

  /** `req.user` is the record the provider callback resolved. */
  function SocialAuthSuccessSpec(users: seq<User>, id: Id, now: int, env: Env): (Redirect, seq<User>)
    requires id < |users|
  {
    var u := users[id].(lastLogin := Some(now));
    match SaveAt(users, id, u)
    case Failure(_) => (AuthError(env.frontendUrl), users)
    case Success(after) => (AuthSuccess(env.frontendUrl, GenerateToken(id, env)), after)
  }

  method SocialAuthSuccess(store: UserStore, id: Id, now: int, env: Env) returns (r: Redirect)
    requires store.Valid() && id < |store.users|
    modifies store
    ensures store.Valid()
    ensures (r, store.users) == SocialAuthSuccessSpec(old(store.users), id, now, env)
  {
    var user := store.users[id].(lastLogin := Some(now));
    var saved := store.Save(id, user);
    if saved.Failure? {
      return AuthError(env.frontendUrl);
    }
    r := AuthSuccess(env.frontendUrl, GenerateToken(id, env));
  }

  /** The hand-off records the login and redirects with a token for the
      resolved record. */
  lemma SocialAuthSucceeds(users: seq<User>, id: Id, now: int, env: Env)
    requires WellFormed(users) && id < |users|
    ensures SocialAuthSuccessSpec(users, id, now, env) ==
      (AuthSuccess(env.frontendUrl, GenerateToken(id, env)), users[id := users[id].(lastLogin := Some(now))])
  {
    SaveAtSameEmail(users, id, users[id].(lastLogin := Some(now)));
  }

  // ---------------------------------------------------------------- guest

  function GuestName(now: nat): string {
    "Guest_" + NatToString(now)
  }

  function GuestEmail(now: nat): string {
    "guest_" + NatToString(now) + "@temp.com"
  }

  function GuestRecord(now: nat): User {
    NewUser(GuestName(now), GuestEmail(now), None).(isGuest := true, isEmailVerified := true)
  }

  /** Both `Date.now()` readings in the handler are taken to be `now`. */
  function GuestAccessSpec(users: seq<User>, now: nat, env: Env): Outcome {
    var u := GuestRecord(now);
    match SaveNew(users, u)
    case Failure(_) => Outcome(Refuse(500, GuestFailed), users)
    case Success(after) =>
      var id := |users|;
      Outcome(Response(200, Accepted(Some(GuestGranted), Some(GenerateToken(id, env)),
                                     Some(UserView(id, u.name, u.email, None, u.avatar, Some(true))), None)),
              after)
  }

  method GuestAccess(store: UserStore, now: nat, env: Env) returns (resp: Response)
    requires store.Valid()
    modifies store
    ensures store.Valid()
    ensures Outcome(resp, store.users) == GuestAccessSpec(old(store.users), now, env)
  {
    var guest := GuestRecord(now);
    var saved := store.Insert(guest);
    if saved.Failure? {
      return Refuse(500, GuestFailed);
    }
    var id := saved.value;
    resp := Response(200, Accepted(Some(GuestGranted), Some(GenerateToken(id, env)),
                                   Some(UserView(id, guest.name, guest.email, None, guest.avatar, Some(true))),
                                   None));
  }

  /** Guest emails taken at different milliseconds differ. */
  lemma GuestEmailsDistinct(t1: nat, t2: nat)
    ensures GuestEmail(t1) == GuestEmail(t2) <==> t1 == t2
  {
    var e1, e2 := GuestEmail(t1), GuestEmail(t2);
    assert e1[6..|e1| - 9] == NatToString(t1);
    assert e2[6..|e2| - 9] == NatToString(t2);
    NatToStringInjective(t1, t2);
  }

  /** When no record holds this millisecond's guest email, guest access
      appends a verified, passwordless guest record and returns a token for
      it; when one does (two guests in the same millisecond), it fails with
      500 and writes nothing. */
  lemma GuestAccessOutcomes(users: seq<User>, now: nat, env: Env)
    requires WellFormed(users)
    ensures var o := GuestAccessSpec(users, now, env);
      if forall k :: 0 <= k < |users| ==> users[k].email != GuestEmail(now) then
        && o.response.status == 200
        && o.users == users + [GuestRecord(now)]
        && o.users[|users|].isGuest && o.users[|users|].isEmailVerified
        && o.users[|users|].password.None?
        && o.response.body.token == Some(GenerateToken(|users|, env))
      else
        o == Outcome(Refuse(500, GuestFailed), users)
  {
  }

  /** A guest record, once created, cannot be logged into with any
      password. */
  lemma GuestCannotLogin(users: seq<User>, now: nat, env: Env, password: string, later: int)
    requires WellFormed(users)
    requires GuestAccessSpec(users, now, env).response.status == 200
    ensures var after := GuestAccessSpec(users, now, env).users;
      LoginSpec(after, GuestEmail(now), password, later, env).response.status in {400, 401}
  {
    var after := GuestAccessSpec(users, now, env).users;
    assert after == users + [GuestRecord(now)];
    PasswordlessCannotLogin(after, |users|, password, later, env);
  }

  // ------------------------------------------------------ forgot password

  function ResetRequested(u: User, minted: Minted): User {
    u.(passwordResetToken := Some(minted.token), passwordResetExpires := Some(minted.expires))
  }

  function ForgotPasswordSpec(users: seq<User>, email: string, minted: Minted, mail: Transport): Outcome {
    if email == "" then Outcome(Refuse(400, MissingEmail), users)
    else match FindByEmail(users, email)
      case None => Outcome(Refuse(404, UnknownEmail), users)
      case Some(id) =>
        match SaveAt(users, id, ResetRequested(users[id], minted))
        case Failure(_) => Outcome(Refuse(500, ResetFailed), users)
        case Success(after) =>
          match AwaitSendEmail(mail)
          case Threw(_) => Outcome(Refuse(500, ResetEmailNotSent), after)
          case Returned(_) => Outcome(Response(200, Accepted(Some(ResetEmailSent), None, None, None)), after)
  }

  method ForgotPassword(store: UserStore, email: string, minted: Minted, mail: Transport)
    returns (resp: Response)
    requires store.Valid()
    modifies store
    ensures store.Valid()
    ensures Outcome(resp, store.users) == ForgotPasswordSpec(old(store.users), email, minted, mail)
  {
    if email == "" {
      return Refuse(400, MissingEmail);
    }
    var found := store.FindOne((u: User) => u.email == email);
    if found.None? {
      return Refuse(404, UnknownEmail);
    }
    var id := found.value;
    var user := ResetRequested(store.users[id], minted);
    var saved := store.Save(id, user);
    if saved.Failure? {
      return Refuse(500, ResetFailed);
    }
    var attempt := AwaitSendEmail(mail);
    if attempt.Threw? {
      return Refuse(500, ResetEmailNotSent);
    }
    resp := Response(200, Accepted(Some(ResetEmailSent), None, None, None));
  }

  /** 400 without an email, 404 for an unknown one; otherwise the fresh
      reset token is stored on the record before sending and the answer is
      200 whatever the transport does: `sendEmail` never throws, so the
      "failed to send" answer cannot occur. */
  lemma ForgotPasswordOutcomes(users: seq<User>, email: string, minted: Minted, mail: Transport)
    requires WellFormed(users)
    ensures var o := ForgotPasswordSpec(users, email, minted, mail);
      && o.response.body != Refused(ResetEmailNotSent)
      && (email == "" ==> o == Outcome(Refuse(400, MissingEmail), users))
      && (email != "" && FindByEmail(users, email).None? ==> o == Outcome(Refuse(404, UnknownEmail), users))
      && (email != "" && FindByEmail(users, email).Some? ==>
            var id := FindByEmail(users, email).value;
            && o.response.status == 200
            && o.users == users[id := ResetRequested(users[id], minted)])
  {
    if email != "" && FindByEmail(users, email).Some? {
      var id := FindByEmail(users, email).value;
      SaveAtSameEmail(users, id, ResetRequested(users[id], minted));
    }
  }

  // ------------------------------------------------------- reset password

  /** The filter `{ passwordResetToken: token, passwordResetExpires: { $gt: now } }`. */
  predicate HoldsLiveResetToken(u: User, token: string, now: int) {
    u.passwordResetToken == Some(token) && u.passwordResetExpires.Some? && u.passwordResetExpires.value > now
  }

  function PasswordReset(u: User, newPassword: string): User {
    u.(password := Some(Hash(newPassword)), passwordResetToken := None, passwordResetExpires := None)
  }

  function ResetPasswordSpec(users: seq<User>, token: string, newPassword: string, confirmPassword: string,
                             now: int): Outcome
  {
    if token == "" || newPassword == "" || confirmPassword == "" then Outcome(Refuse(400, MissingFields), users)
    else if newPassword != confirmPassword then Outcome(Refuse(400, PasswordsDiffer), users)
    else if Utf16Length(newPassword) < 6 then Outcome(Refuse(400, ShortPassword), users)
    else match FindFirst(users, (u: User) => HoldsLiveResetToken(u, token, now))
      case None => Outcome(Refuse(400, InvalidResetToken), users)
      case Some(id) =>
        match SaveAt(users, id, PasswordReset(users[id], newPassword))
        case Failure(_) => Outcome(Refuse(500, ResetFailed), users)
        case Success(after) => Outcome(Response(200, Accepted(Some(ResetSucceeded), None, None, None)), after)
  }

  method ResetPassword(store: UserStore, token: string, newPassword: string, confirmPassword: string,
                       now: int) returns (resp: Response)
    requires store.Valid()
    modifies store
    ensures store.Valid()
    ensures Outcome(resp, store.users) == ResetPasswordSpec(old(store.users), token, newPassword, confirmPassword, now)
  {
    if token == "" || newPassword == "" || confirmPassword == "" {
      return Refuse(400, MissingFields);
    }
    if newPassword != confirmPassword {
      return Refuse(400, PasswordsDiffer);
    }
    if Utf16Length(newPassword) < 6 {
      return Refuse(400, ShortPassword);
    }
    var found := store.FindOne((u: User) => HoldsLiveResetToken(u, token, now));
    if found.None? {
      return Refuse(400, InvalidResetToken);
    }
    var id := found.value;
    var user := PasswordReset(store.users[id], newPassword);
    var saved := store.Save(id, user);
    if saved.Failure? {
      return Refuse(500, ResetFailed);
    }
    resp := Response(200, Accepted(Some(ResetSucceeded), None, None, None));
  }

  /** The checks come in order (missing fields, mismatch, length) and all
      answer 400 without touching the collection; a successful reset
      returns no session token. */
  lemma ResetPasswordGuards(users: seq<User>, token: string, newPassword: string, confirmPassword: string,
                            now: int)
    ensures var o := ResetPasswordSpec(users, token, newPassword, confirmPassword, now);
      && (token == "" || newPassword == "" || confirmPassword == "" ==> o == Outcome(Refuse(400, MissingFields), users))
      && (token != "" && newPassword != "" && confirmPassword != "" && newPassword != confirmPassword ==>
            o == Outcome(Refuse(400, PasswordsDiffer), users))
      && (token != "" && newPassword != "" && newPassword == confirmPassword && Utf16Length(newPassword) < 6 ==>
            o == Outcome(Refuse(400, ShortPassword), users))
      && (o.response.status == 200 ==> o.response.body.token.None? && o.response.body.user.None?)
  {
  }

  /** A successful reset stores the new password on the first record
      holding the live token and clears both reset fields there, so the
      same token is refused afterwards, at any time, unless some other
      record still holds it. */
  lemma ResetTokenNotReplayable(users: seq<User>, token: string, newPassword: string, now: int,
                                later: int, again: string)
    requires WellFormed(users)
    requires ResetPasswordSpec(users, token, newPassword, newPassword, now).response.status == 200
    ensures var after := ResetPasswordSpec(users, token, newPassword, newPassword, now).users;
      var id := FindFirst(users, (u: User) => HoldsLiveResetToken(u, token, now)).value;
      && after == users[id := PasswordReset(users[id], newPassword)]
      && after[id].passwordResetToken.None? && after[id].passwordResetExpires.None?
      && ((forall k :: 0 <= k < |users| && k != id ==> users[k].passwordResetToken != Some(token)) ==>
            ResetPasswordSpec(after, token, again, again, later).users == after &&
            ResetPasswordSpec(after, token, again, again, later).response.status == 400)
  {
    var after := ResetPasswordSpec(users, token, newPassword, newPassword, now).users;
    var id := FindFirst(users, (u: User) => HoldsLiveResetToken(u, token, now)).value;
    SaveAtSameEmail(users, id, PasswordReset(users[id], newPassword));
    if forall k :: 0 <= k < |users| && k != id ==> users[k].passwordResetToken != Some(token) {
      assert forall k :: 0 <= k < |after| ==> !HoldsLiveResetToken(after[k], token, later);
    }
  }

  /** A second reset request for the same account overwrites the token
      the first one stored, so the first token is refused afterwards
      (unless another account happens to hold it). */
  lemma SecondResetRequestInvalidatesFirst(users: seq<User>, email: string, first: Minted, second: Minted,
                                           mail1: Transport, mail2: Transport, newPassword: string, now: int)
    requires WellFormed(users)
    requires email != "" && FindByEmail(users, email).Some?
    requires first.token != second.token
    requires forall k :: 0 <= k < |users| && users[k].email != email ==> users[k].passwordResetToken != Some(first.token)
    ensures var mid := ForgotPasswordSpec(users, email, first, mail1);
      var after := ForgotPasswordSpec(mid.users, email, second, mail2);
      var o := ResetPasswordSpec(after.users, first.token, newPassword, newPassword, now);
      && mid.response.status == 200 && after.response.status == 200
      && o.response.status == 400 && o.users == after.users
  {
    var id := FindByEmail(users, email).value;
    ForgotPasswordOutcomes(users, email, first, mail1);
    var mid := users[id := ResetRequested(users[id], first)];
    SaveAtSameEmail(users, id, ResetRequested(users[id], first));
    FindByEmailUnique(mid, id);
    ForgotPasswordOutcomes(mid, email, second, mail2);
    var after := mid[id := ResetRequested(mid[id], second)];
    assert forall k :: 0 <= k < |after| ==> !HoldsLiveResetToken(after[k], first.token, now) by {
      forall k | 0 <= k < |after|
        ensures !HoldsLiveResetToken(after[k], first.token, now)
      {
        if k != id {
          assert users[k].email != email by {
            if k < id { assert users[k].email != users[id].email; }
            else { assert users[id].email != users[k].email; }
          }
        }
      }
    }
  }

  /** After a reset, the old password no longer logs in and the new one
      does. */
  lemma LoginAfterReset(users: seq<User>, token: string, newPassword: string, oldPassword: string,
                        now: int, later: int, env: Env)
    requires WellFormed(users)
    requires ResetPasswordSpec(users, token, newPassword, newPassword, now).response.status == 200
    requires oldPassword != "" && oldPassword != newPassword
    ensures var after := ResetPasswordSpec(users, token, newPassword, newPassword, now).users;
      var id := FindFirst(users, (u: User) => HoldsLiveResetToken(u, token, now)).value;
      && LoginSpec(after, after[id].email, newPassword, later, env).response.status == 200
      && LoginSpec(after, after[id].email, oldPassword, later, env).response == Refuse(401, InvalidCredentials)
  {
    var id := FindFirst(users, (u: User) => HoldsLiveResetToken(u, token, now)).value;
    SaveAtSameEmail(users, id, PasswordReset(users[id], newPassword));
    var after := users[id := PasswordReset(users[id], newPassword)];
    LoginSucceeds(after, id, newPassword, later, env);
    FindByEmailUnique(after, id);
  }

  // ----------------------------------------------------- get current user

  /** `User.findById(req.userId)`, answered without the password. */
  function GetCurrentUserSpec(users: seq<User>, userId: Id): Response {
    if userId < |users| then
      var u := users[userId];
      Response(200, Accepted(None, None,
                             Some(UserView(userId, u.name, u.email, Some(u.isEmailVerified), u.avatar, Some(u.isGuest))),
                             None))
    else Refuse(404, UserNotFound)
  }

  method GetCurrentUser(store: UserStore, userId: Id) returns (resp: Response)
    ensures resp == GetCurrentUserSpec(store.users, userId)
  {
    if userId >= |store.users| {
      return Refuse(404, UserNotFound);
    }
    var u := store.users[userId];
    resp := Response(200, Accepted(None, None,
                                   Some(UserView(userId, u.name, u.email, Some(u.isEmailVerified), u.avatar, Some(u.isGuest))),
                                   None));
  }

  /** The profile returned describes exactly the stored record; an unknown
      id gives 404. */
  lemma CurrentUserDescribesRecord(users: seq<User>, userId: Id)
    ensures var r := GetCurrentUserSpec(users, userId);
      && (r.status == 200 <==> userId < |users|)
      && (userId < |users| ==>
            && r.body.user.Some?
            && r.body.user.value.id == userId
            && r.body.user.value.email == users[userId].email
            && r.body.user.value.isGuest == Some(users[userId].isGuest))
      && (userId >= |users| ==> r == Refuse(404, UserNotFound))
  {
  }
}
