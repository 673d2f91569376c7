/** Account handlers (backend/controllers/userController.ts) as updates of
    the user collection. Foreign services are parameters: the bcrypt hash of
    a new password, bcrypt's comparison, the crypto-random reset token, the
    image host's URL, the random indices of the verification code, whether
    the mailer succeeded, and the clock (`now`, in milliseconds). */
module UserController {
  import opened Common
  import opened Models
  import opened Db
  import opened VerificationCode

  /** Validity of a verification code: 24 hours. */
  const DayMs := 24 * 60 * 60 * 1000
  /** Validity of a password-reset token: 1 hour. */
  const HourMs := 1 * 60 * 60 * 1000

  /** The user holds this verification code and it has not expired. */
  predicate VerificationMatches(u: User, code: string, now: int): (b: bool)
    ensures u.verificationToken.None? || u.verificationTokenExpiresAt.None? ==> !b
    ensures u.verificationTokenExpiresAt.Some? && u.verificationTokenExpiresAt.value <= now ==> !b
    ensures b ==> forall other :: other != code ==> u.verificationToken != Some(other)
  {
    && u.verificationToken == Some(code)
    && u.verificationTokenExpiresAt.Some?
    && u.verificationTokenExpiresAt.value > now
  }

  /** The user holds this reset token and it has not expired. */
  predicate ResetMatches(u: User, token: string, now: int): (b: bool)
    ensures u.resetPasswordToken.None? || u.resetPasswordTokenExpiresAt.None? ==> !b
    ensures u.resetPasswordTokenExpiresAt.Some? && u.resetPasswordTokenExpiresAt.value <= now ==> !b
    ensures b ==> forall other :: other != token ==> u.resetPasswordToken != Some(other)
  {
    && u.resetPasswordToken == Some(token)
    && u.resetPasswordTokenExpiresAt.Some?
    && u.resetPasswordTokenExpiresAt.value > now
  }

  /** A verified user: flag set, both verification fields cleared, nothing else touched. */
  function MarkVerified(u: User): (v: User)
    ensures v.isVerified && v.verificationToken.None? && v.verificationTokenExpiresAt.None?
    ensures v.(isVerified := u.isVerified, verificationToken := u.verificationToken,
               verificationTokenExpiresAt := u.verificationTokenExpiresAt) == u
  {
    u.(isVerified := true, verificationToken := None, verificationTokenExpiresAt := None)
  }

  /** A user with a new reset token valid for one hour from `now`. */
  function IssueReset(u: User, token: string, now: int): (v: User)
    ensures v.resetPasswordToken == Some(token) && v.resetPasswordTokenExpiresAt == Some(now + HourMs)
    ensures v.(resetPasswordToken := u.resetPasswordToken,
               resetPasswordTokenExpiresAt := u.resetPasswordTokenExpiresAt) == u
  {
    u.(resetPasswordToken := Some(token), resetPasswordTokenExpiresAt := Some(now + HourMs))
  }

  /** A user after a reset: new password hash, both reset fields cleared. */
  function ApplyReset(u: User, passwordHash: string): (v: User)
    ensures v.password == passwordHash
    ensures v.resetPasswordToken.None? && v.resetPasswordTokenExpiresAt.None?
    ensures v.(password := u.password, resetPasswordToken := u.resetPasswordToken,
               resetPasswordTokenExpiresAt := u.resetPasswordTokenExpiresAt) == u
  {
    u.(password := passwordHash, resetPasswordToken := None, resetPasswordTokenExpiresAt := None)
  }

  /** Once used, a verification code matches nothing, at any later time. */
  lemma VerificationIsSingleUse(u: User, code: string, later: int)
    ensures !VerificationMatches(MarkVerified(u), code, later)
  {
  }

  /** Once used, a reset token matches nothing, at any later time. */
  lemma ResetIsSingleUse(u: User, passwordHash: string, token: string, later: int)
    ensures !ResetMatches(ApplyReset(u, passwordHash), token, later)
  {
  }

  /** A freshly issued reset token is accepted exactly before the hour is up. */
  lemma IssuedResetAcceptedWithinTheHour(u: User, token: string, now: int, t: int)
    ensures ResetMatches(IssueReset(u, token, now), token, t) <==> t < now + HourMs
    ensures forall other :: other != token ==> !ResetMatches(IssueReset(u, token, now), other, t)
  {
  }

  /** `User.findOne({ email })`. */
  method FindByEmail(db: Database, email: string) returns (r: Option<Id>)
    ensures r.None? <==> !EmailTaken(db.users, email)
    ensures r.Some? ==> r.value in db.users && db.users[r.value].email == email
  {
    if exists id :: id in db.users && db.users[id].email == email {
      var id :| id in db.users && db.users[id].email == email;
      r := Some(id);
    } else {
      r := None;
    }
  }

  /** `signup`: refuse a taken email; otherwise create the user with a fresh
      six-character code valid for 24 hours. The user stays created even when
      the verification mail then fails (500). */
  method Signup(db: Database, fullname: string, email: string, passwordHash: string, contact: int,
                randomIndices: seq<int>, mailerOk: bool, now: int)
    returns (reply: Reply, created: Option<Id>)
    requires db.Valid()
    requires |randomIndices| >= DefaultLength
    requires forall i :: 0 <= i < DefaultLength ==> 0 <= randomIndices[i] < |Characters|
    modifies db
    ensures db.Valid()
    ensures db.restaurants == old(db.restaurants) && db.menus == old(db.menus) && db.orders == old(db.orders)
    ensures EmailTaken(old(db.users), email) ==> reply == Reply(400, "User already exists with this email")
    ensures created.None? ==> db.users == old(db.users)
    ensures created.Some? <==> !EmailTaken(old(db.users), email) && fullname != "" && email != "" && passwordHash != ""
    ensures !EmailTaken(old(db.users), email) && created.None? ==> reply == InternalError
    ensures created.Some? ==>
              && created.value !in old(db.users)
              && created.value in db.users
              && db.users == old(db.users)[created.value := db.users[created.value]]
              && reply == (if mailerOk then Reply(201, "User created successfully") else InternalError)
    ensures created.Some? ==>
              var u := db.users[created.value];
              && HasSchemaDefaults(u)
              && u.fullname == fullname && u.email == email && u.password == passwordHash && u.contact == contact
              && u.lastLogin == now
              && u.verificationTokenExpiresAt == Some(now + DayMs)
              && u.verificationToken.Some? && |u.verificationToken.value| == DefaultLength
              && (forall i :: 0 <= i < DefaultLength ==> u.verificationToken.value[i] == Characters[randomIndices[i]])
  {
    var existing := FindByEmail(db, email);
    if existing.Some? {
      return Reply(400, "User already exists with this email"), None;
    }
    var code := GenerateVerificationCode(randomIndices);
    var user := CreateUser(fullname, email, passwordHash, contact, Some(code), Some(now + DayMs), now);
    if user.None? {
      return InternalError, None;
    }
    var id := db.NewId();
    AddUserKeepsEmailsUnique(db.users, id, user.value);
    db.users := db.users[id := user.value];
    created := Some(id);
    reply := if mailerOk then Reply(201, "User created successfully") else InternalError;
  }

  /** `login`: an unknown email and a wrong password get the same reply; a
      correct password only moves `lastLogin`. `passwordMatches` is bcrypt's
      comparison of a plain password with a stored hash. */
  method Login(db: Database, email: string, password: string,
               passwordMatches: (string, string) -> bool, now: int)
    returns (reply: Reply, loggedIn: Option<Id>)
    requires db.Valid()
    modifies db`users
    ensures db.Valid()
    ensures loggedIn.None? ==> reply == Reply(400, "Incorrect email or password") && db.users == old(db.users)
    ensures !EmailTaken(old(db.users), email) ==> loggedIn.None?
    ensures forall id :: id in old(db.users) && old(db.users)[id].email == email ==>
              if passwordMatches(password, old(db.users)[id].password) then
                && loggedIn == Some(id)
                && reply == Reply(200, "Welcome back " + old(db.users)[id].fullname)
                && db.users == old(db.users)[id := old(db.users)[id].(lastLogin := now)]
              else loggedIn.None?
  {
    var found := FindByEmail(db, email);
    if found.None? {
      return Reply(400, "Incorrect email or password"), None;
    }
    var id := found.value;
    var user := db.users[id];
    if !passwordMatches(password, user.password) {
      return Reply(400, "Incorrect email or password"), None;
    }
    ReplaceUserKeepsEmailsUnique(db.users, id, user.(lastLogin := now));
    db.users := db.users[id := user.(lastLogin := now)];
    reply, loggedIn := Reply(200, "Welcome back " + user.fullname), Some(id);
  }

  /** `verifyEmail`: some user whose unexpired code equals `code` is marked
      verified and loses the code; if none holds it, 400 and no change. */
  method VerifyEmail(db: Database, code: string, mailerOk: bool, now: int)
    returns (reply: Reply, verified: Option<Id>)
    requires db.Valid()
    modifies db`users
    ensures db.Valid()
    ensures verified.None? <==> forall id :: id in old(db.users) ==> !VerificationMatches(old(db.users)[id], code, now)
    ensures verified.None? ==>
              reply == Reply(400, "Invalid or expired verification token") && db.users == old(db.users)
    ensures verified.Some? ==>
              && verified.value in old(db.users)
              && VerificationMatches(old(db.users)[verified.value], code, now)
              && db.users == old(db.users)[verified.value := MarkVerified(old(db.users)[verified.value])]
              && reply == (if mailerOk then Reply(200, "Email verified successfully.") else InternalError)
  {
    if exists id :: id in db.users && VerificationMatches(db.users[id], code, now) {
      var id :| id in db.users && VerificationMatches(db.users[id], code, now);
      ReplaceUserKeepsEmailsUnique(db.users, id, MarkVerified(db.users[id]));
      db.users := db.users[id := MarkVerified(db.users[id])];
      verified := Some(id);
      reply := if mailerOk then Reply(200, "Email verified successfully.") else InternalError;
    } else {
      reply, verified := Reply(400, "Invalid or expired verification token"), None;
    }
  }

  /** `forgotPassword`: an unknown email gets 400; otherwise the user gets
      `resetToken`, valid for one hour. */
  method ForgotPassword(db: Database, email: string, resetToken: string, mailerOk: bool, now: int)
    returns (reply: Reply)
    requires db.Valid()
    modifies db`users
    ensures db.Valid()
    ensures !EmailTaken(old(db.users), email) ==>
              reply == Reply(400, "User doesn't exist") && db.users == old(db.users)
    ensures forall id :: id in old(db.users) && old(db.users)[id].email == email ==>
              && db.users == old(db.users)[id := IssueReset(old(db.users)[id], resetToken, now)]
              && reply == (if mailerOk then Reply(200, "Password reset link sent to your email") else InternalError)
  {
    var found := FindByEmail(db, email);
    if found.None? {
      return Reply(400, "User doesn't exist");
    }
    var id := found.value;
    ReplaceUserKeepsEmailsUnique(db.users, id, IssueReset(db.users[id], resetToken, now));
    db.users := db.users[id := IssueReset(db.users[id], resetToken, now)];
    reply := if mailerOk then Reply(200, "Password reset link sent to your email") else InternalError;
  }

  /** `resetPassword`: some user whose unexpired reset token equals `token`
      gets the new password hash and loses the token. */
  method ResetPassword(db: Database, token: string, passwordHash: string, mailerOk: bool, now: int)
    returns (reply: Reply, reset: Option<Id>)
    requires db.Valid()
    modifies db`users
    ensures db.Valid()
    ensures reset.None? <==> forall id :: id in old(db.users) ==> !ResetMatches(old(db.users)[id], token, now)
    ensures reset.None? ==>
              reply == Reply(400, "Invalid or expired reset token") && db.users == old(db.users)
    ensures reset.Some? ==>
              && reset.value in old(db.users)
              && ResetMatches(old(db.users)[reset.value], token, now)
              && db.users == old(db.users)[reset.value := ApplyReset(old(db.users)[reset.value], passwordHash)]
              && reply == (if mailerOk then Reply(200, "Password reset successfully.") else InternalError)
  {
    if exists id :: id in db.users && ResetMatches(db.users[id], token, now) {
      var id :| id in db.users && ResetMatches(db.users[id], token, now);
      ReplaceUserKeepsEmailsUnique(db.users, id, ApplyReset(db.users[id], passwordHash));
      db.users := db.users[id := ApplyReset(db.users[id], passwordHash)];
      reset := Some(id);
      reply := if mailerOk then Reply(200, "Password reset successfully.") else InternalError;
    } else {
      reply, reset := Reply(400, "Invalid or expired reset token"), None;
    }
  }

  /** The editable profile fields of `updateProfile`. */
  datatype Profile = Profile(fullname: string, email: string, address: string, city: string, country: string)

  /** `updateProfile`: without a picture, 400 and no change. Otherwise the
      caller's profile fields and picture (the uploaded URL) are overwritten;
      an email another user has trips the unique index (500, no change); a
      caller with no user record gets 200 and nothing changes. */
  method UpdateProfile(db: Database, caller: Id, profile: Profile, profilePicture: string, uploadedUrl: string)
    returns (reply: Reply)
    requires db.Valid()
    modifies db`users
    ensures db.Valid()
    ensures !Truthy(profilePicture) ==>
              reply == Reply(400, "Profile picture is required") && db.users == old(db.users)
    ensures db.users != old(db.users) ==> Truthy(profilePicture) && caller in old(db.users)
    ensures Truthy(profilePicture) && caller !in old(db.users) ==>
              reply == Reply(200, "Profile updated successfully") && db.users == old(db.users)
    ensures Truthy(profilePicture) && caller in old(db.users) && EmailTakenByOther(old(db.users), profile.email, caller) ==>
              reply == InternalError && db.users == old(db.users)
    ensures Truthy(profilePicture) && caller in old(db.users) && !EmailTakenByOther(old(db.users), profile.email, caller) ==>
              && reply == Reply(200, "Profile updated successfully")
              && db.users == old(db.users)[caller := old(db.users)[caller].(
                   fullname := profile.fullname, email := profile.email, address := profile.address,
                   city := profile.city, country := profile.country, profilePicture := uploadedUrl)]
  {
    if profilePicture == "" {
      return Reply(400, "Profile picture is required");
    }
    if caller !in db.users {
      return Reply(200, "Profile updated successfully");
    }
    if exists id :: id in db.users && id != caller && db.users[id].email == profile.email {
      return InternalError;
    }
    var updated := db.users[caller].(
      fullname := profile.fullname, email := profile.email, address := profile.address,
      city := profile.city, country := profile.country, profilePicture := uploadedUrl);
    ReplaceUserKeepsEmailsUnique(db.users, caller, updated);
    db.users := db.users[caller := updated];
    reply := Reply(200, "Profile updated successfully");
  }
}
