/** The handlers of the user controller as methods on one store: the
    email-verification rows, the user rows, the next `user_id` the database
    will assign, and the `profileEditAllowed` flag of the requester's session.
    The current time, each generated code and every error the credential
    library may report are parameters; the logged-in user is `me`. */
module UserController {
  import opened Wrappers
  import opened Schema
  import opened Verification
  import opened Accounts
  import opened Messages

  /** What a handler answers, in place of its flash message and its render or redirect. */
  datatype Outcome =
    | Registered            // signup done, redirect to the login page
    | PasswordMismatch      // a password and its confirmation differ
    | TermsNotAccepted      // a required consent box is unticked
    | InvalidCode           // no unconsumed row has this email and code
    | ExpiredCode           // the row the lookup returned is older than five minutes
    | DuplicateValue(message: string)  // a unique constraint fired on save
    | RegisterFailed        // the credential library refused the registration
    | AccountNotFound       // no user holds the submitted email
    | CodeSent              // a new code row was written
    | ResetFormShown        // the code was accepted, the new-password form follows
    | UserNotFound          // the looked-up user row is missing
    | PasswordSetFailed     // `setPassword` reported an error
    | PasswordChanged       // the new credential was saved
    | WrongPassword         // `passwordComparison` failed or did not match
    | EditUnlocked          // the session may now edit the profile
    | EditNotAllowed        // the profile-edit flag is not set
    | EditFormShown         // the edit form is rendered
    | SameEmail             // `send-code` with the email the user already has
    | EmailInUse            // `send-code` with an email another user holds
    | ProfileSaved          // nickname and email saved, flag removed
    | ProfileUpdateFailed   // any other exception in the profile save

  /** The result of validating a submitted code against the store. */
  datatype CodeCheck = Accepted(index: nat) | NoSuchCode | TooOld(index: nat)

  /** The body of the signup form. `term1` and `term2` are the consent boxes. */
  datatype SignupForm = SignupForm(
    name: string, login: string, email: string,
    password: string, confirmPassword: string, emailCode: string,
    term1: bool, term2: bool)

  /** The `action` value of the button that asks for a code on the edit form. */
  const SendCodeAction: string := "send-code"

  /** The row `User.register` inserts for a signup form. */
  function NewMember(uid: nat, f: SignupForm): (u: User)
    ensures u.userId == uid && u.login == f.login && u.name == f.name && u.email == f.email
    ensures u.rankId == DefaultRankId && u.emailVerified == Y
    ensures forall pw :: PasswordMatches(u, pw) <==> pw == f.password
  {
    User(uid, f.login, f.name, f.email, Hash(f.password), DefaultRankId, Y)
  }

  /** The profile-edit flag is set and `findByPk` finds the requester. */
  predicate Editing(allowed: bool, users: seq<User>, me: nat)
  {
    allowed && UserById(users, me).Some?
  }

  /** The row `User.findByPk(me)` returns. */
  function Requester(users: seq<User>, me: nat): (u: User)
    requires UserById(users, me).Some?
    ensures u in users && u.userId == me
  {
    users[UserById(users, me).value]
  }

  class Store {
    var codes: seq<CodeRecord>
    var users: seq<User>
    var nextUserId: nat
    var profileEditAllowed: bool

    ghost predicate Valid()
      reads this
    {
      && UniqueKeys(users)
      && (forall i :: 0 <= i < |users| ==> users[i].userId < nextUserId)
      && (forall i :: 0 <= i < |codes| ==> WellFormed(codes[i]))
    }

    /** The tables as they stand, and a session that has not re-entered its password. */
    constructor (codes0: seq<CodeRecord>, users0: seq<User>, nextUserId0: nat)
      requires UniqueKeys(users0)
      requires forall i :: 0 <= i < |users0| ==> users0[i].userId < nextUserId0
      requires forall i :: 0 <= i < |codes0| ==> WellFormed(codes0[i])
      ensures Valid()
      ensures codes == codes0 && users == users0 && nextUserId == nextUserId0
      ensures !profileEditAllowed
    {
      codes, users, nextUserId := codes0, users0, nextUserId0;
      profileEditAllowed := false;
    }

    /** `EmailVerification.findOne({ where: { email, code, verified: 'N' } })`
        with no ordering: any pending row may come back. */
    method FindPending(email: string, code: string) returns (r: Option<nat>)
      ensures r.None? <==> Pending(codes, email, code) == {}
      ensures r.Some? ==> r.value in Pending(codes, email, code)
    {
      if i: nat :| i < |codes| && IsPending(codes[i], email, code) {
        assert i in Pending(codes, email, code);
        r := Some(i);
      } else {
        r := None;
      }
    }

    /** The same lookup with `order: [["sent_at", "DESC"]]`: a newest pending row. */
    method FindNewestPending(email: string, code: string) returns (r: Option<nat>)
      ensures r.None? <==> Pending(codes, email, code) == {}
      ensures r.Some? ==> IsNewestPending(codes, r.value, email, code)
    {
      if Pending(codes, email, code) == {} {
        r := None;
      } else {
        NewestPendingExists(codes, email, code);
        var i: nat :| i < |codes| && IsNewestPending(codes, i, email, code);
        r := Some(i);
      }
    }

    /** The lookup, the expiry test and the update that the three validation
        sites share; `newestFirst` selects the ordered lookup of the profile edit. */
    method ValidateCode(email: string, code: string, now: int, newestFirst: bool) returns (c: CodeCheck)
      requires Valid()
      modifies this`codes
      ensures Valid()
      ensures c.NoSuchCode? <==> Pending(old(codes), email, code) == {}
      ensures !c.NoSuchCode? ==> c.index in Pending(old(codes), email, code)
      ensures newestFirst && !c.NoSuchCode? ==> IsNewestPending(old(codes), c.index, email, code)
      ensures c.TooOld? ==> Expired(old(codes)[c.index], now)
      ensures c.Accepted? ==> Admits(old(codes), c.index, email, code, now)
      ensures c.Accepted? ==> codes == Consume(old(codes), c.index, now)
      ensures !c.Accepted? ==> codes == old(codes)
    {
      var found: Option<nat>;
      if newestFirst {
        found := FindNewestPending(email, code);
      } else {
        found := FindPending(email, code);
      }
      if found.None? {
        return NoSuchCode;
      }
      var i := found.value;
      if now - codes[i].sentAt > CodeLifetimeMs {
        return TooOld(i);
      }
      codes := Consume(codes, i, now);
      c := Accepted(i);
    }

    /** `create`: the signup handler. */
    method Signup(f: SignupForm, now: int, fault: bool) returns (r: Outcome)
      requires Valid()
      modifies this`codes, this`users, this`nextUserId
      ensures Valid()
      ensures r == PasswordMismatch <==> f.password != f.confirmPassword
      ensures r == TermsNotAccepted <==> f.password == f.confirmPassword && !(f.term1 && f.term2)
      ensures r == InvalidCode <==>
                f.password == f.confirmPassword && f.term1 && f.term2
                && Pending(old(codes), f.email, f.emailCode) == {}
      ensures r == ExpiredCode ==>
                exists i: nat :: i in Pending(old(codes), f.email, f.emailCode) && Expired(old(codes)[i], now)
      ensures r in {PasswordMismatch, TermsNotAccepted, InvalidCode, ExpiredCode} ==>
                codes == old(codes) && users == old(users) && nextUserId == old(nextUserId)
      ensures r == RegisterFailed || r.DuplicateValue? ==>
                && users == old(users) && nextUserId == old(nextUserId)
                && exists i: nat :: Admits(old(codes), i, f.email, f.emailCode, now) && codes == Consume(old(codes), i, now)
      ensures r == RegisterFailed ==> fault
      ensures r.DuplicateValue? ==>
                && !fault
                && exists col :: col in RegisterClashes(old(users), f.login, f.name, f.email)
                                 && r.message == SignupDuplicateMessage(col)
      ensures r == Registered ==>
                && !fault && RegisterClashes(old(users), f.login, f.name, f.email) == {}
                && users == old(users) + [NewMember(old(nextUserId), f)]
                && nextUserId == old(nextUserId) + 1
                && exists i: nat :: Admits(old(codes), i, f.email, f.emailCode, now)
                               && codes == Backfill(Consume(old(codes), i, now), f.email, old(nextUserId))
      ensures r in {PasswordMismatch, TermsNotAccepted, InvalidCode, ExpiredCode, RegisterFailed, Registered}
              || r.DuplicateValue?
    {
      if f.password != f.confirmPassword {
        return PasswordMismatch;
      }
      if !f.term1 || !f.term2 {
        return TermsNotAccepted;
      }
      var check := ValidateCode(f.email, f.emailCode, now, false);
      if check.NoSuchCode? {
        return InvalidCode;
      }
      if check.TooOld? {
        return ExpiredCode;
      }
      // The code row stays consumed whatever `register` reports.
      if fault {
        return RegisterFailed;
      }
      var clashes := RegisterClashes(users, f.login, f.name, f.email);
      if clashes != {} {
        var col :| col in clashes;
        return DuplicateValue(SignupDuplicateMessage(col));
      }
      var member := NewMember(nextUserId, f);
      RegisterKeepsKeysUnique(users, member);
      users := users + [member];
      codes := Backfill(codes, f.email, nextUserId);
      nextUserId := nextUserId + 1;
      r := Registered;
    }

    /** `sendResetCode`: issue a password-reset code to an existing account. */
    method SendResetCode(email: string, code: string, now: int) returns (r: Outcome)
      requires Valid()
      requires IsSixDigitCode(code)
      modifies this`codes
      ensures Valid()
      ensures r == AccountNotFound <==> UserByEmail(users, email).None?
      ensures r == AccountNotFound ==> codes == old(codes)
      ensures r != AccountNotFound ==>
                r == CodeSent
                && codes == old(codes) + [Issued(email, code, now, users[UserByEmail(users, email).value].userId)]
    {
      var k := UserByEmail(users, email);
      if k.None? {
        return AccountNotFound;
      }
      codes := codes + [Issued(email, code, now, users[k.value].userId)];
      r := CodeSent;
    }

    /** `verifyResetCode`: the second step of the password reset. */
    method VerifyResetCode(email: string, code: string, now: int) returns (r: Outcome)
      requires Valid()
      modifies this`codes
      ensures Valid()
      ensures r in {InvalidCode, ExpiredCode, UserNotFound, ResetFormShown}
      ensures r == InvalidCode <==> Pending(old(codes), email, code) == {}
      ensures r == ExpiredCode ==>
                exists i: nat :: i in Pending(old(codes), email, code) && Expired(old(codes)[i], now)
      ensures r in {InvalidCode, ExpiredCode} ==> codes == old(codes)
      ensures r in {UserNotFound, ResetFormShown} ==>
                exists i: nat :: Admits(old(codes), i, email, code, now) && codes == Consume(old(codes), i, now)
      ensures r == UserNotFound ==> UserByEmail(users, email).None?
      ensures r == ResetFormShown ==> UserByEmail(users, email).Some?
    {
      var check := ValidateCode(email, code, now, false);
      if check.NoSuchCode? {
        return InvalidCode;
      }
      if check.TooOld? {
        return ExpiredCode;
      }
      if UserByEmail(users, email).None? {
        return UserNotFound;
      }
      r := ResetFormShown;
    }

    /** `resetPasswordFinal`: set a new password for the account holding `email`.
        The store of codes is neither read nor written. */
    method ResetPasswordFinal(email: string, password: string, confirmPassword: string, fault: bool)
      returns (r: Outcome)
      requires Valid()
      modifies this`users
      ensures Valid()
      ensures password != confirmPassword ==> r == PasswordMismatch
      ensures password == confirmPassword && UserByEmail(old(users), email).None? ==> r == AccountNotFound
      ensures password == confirmPassword && UserByEmail(old(users), email).Some? ==>
                r == if fault then PasswordSetFailed else PasswordChanged
      ensures r == PasswordChanged ==>
                var k := UserByEmail(old(users), email).value;
                users == old(users)[k := old(users)[k].(credential := Hash(password))]
      ensures r != PasswordChanged ==> users == old(users)
    {
      if password != confirmPassword {
        return PasswordMismatch;
      }
      var k := UserByEmail(users, email);
      if k.None? {
        return AccountNotFound;
      }
      if fault {
        return PasswordSetFailed;
      }
      CredentialChangeKeepsKeysUnique(users, k.value, Hash(password));
      users := users[k.value := users[k.value].(credential := Hash(password))];
      r := PasswordChanged;
    }

    /** `checkPasswordForEdit`: re-entering the password opens the profile edit. */
    method CheckPasswordForEdit(me: nat, password: string, fault: bool) returns (r: Outcome)
      requires Valid()
      modifies this`profileEditAllowed
      ensures Valid()
      ensures UserById(users, me).None? ==> r == UserNotFound
      ensures UserById(users, me).Some? ==>
                var u := users[UserById(users, me).value];
                r == if !fault && PasswordMatches(u, password) then EditUnlocked else WrongPassword
      ensures r == EditUnlocked ==> profileEditAllowed
      ensures r != EditUnlocked ==> profileEditAllowed == old(profileEditAllowed)
    {
      var k := UserById(users, me);
      if k.None? {
        return UserNotFound;
      }
      if fault || !PasswordMatches(users[k.value], password) {
        return WrongPassword;
      }
      profileEditAllowed := true;
      r := EditUnlocked;
    }

    /** The gate of `showEditProfileForm`. */
    method ShowEditProfileForm(me: nat) returns (r: Outcome)
      ensures r == EditNotAllowed <==> !profileEditAllowed
      ensures profileEditAllowed ==> r == if UserById(users, me).None? then UserNotFound else EditFormShown
    {
      if !profileEditAllowed {
        return EditNotAllowed;
      }
      if UserById(users, me).None? {
        return UserNotFound;
      }
      r := EditFormShown;
    }

    /** The `send-code` branch of `updateProfile` for the user in row `k`. */
    method SendProfileCode(k: nat, email: string, code: string, now: int) returns (r: Outcome)
      requires Valid() && k < |users|
      requires IsSixDigitCode(code)
      modifies this`codes
      ensures Valid()
      ensures r in {SameEmail, EmailInUse, CodeSent}
      ensures r == SameEmail <==> email == users[k].email
      ensures r == EmailInUse <==> email != users[k].email && EmailTakenByOther(users, email, users[k].userId)
      ensures r == CodeSent ==> codes == old(codes) + [Issued(email, code, now, users[k].userId)]
      ensures r != CodeSent ==> codes == old(codes)
    {
      if email == users[k].email {
        return SameEmail;
      }
      if EmailTakenByOther(users, email, users[k].userId) {
        return EmailInUse;
      }
      codes := codes + [Issued(email, code, now, users[k].userId)];
      r := CodeSent;
    }

    /** `user.save()` with the new nickname and email, and the removal of
        the flag that follows it, for the user in row `k`. */
    method SaveProfile(k: nat, name: string, email: string) returns (r: Outcome)
      requires Valid() && k < |users|
      modifies this`users, this`profileEditAllowed
      ensures Valid()
      ensures r == ProfileSaved <==> SaveClashes(old(users), old(users)[k].userId, name, email) == {}
      ensures r == ProfileSaved ==>
                users == old(users)[k := old(users)[k].(name := name, email := email)] && !profileEditAllowed
      ensures r != ProfileSaved ==>
                && users == old(users) && profileEditAllowed == old(profileEditAllowed)
                && r.DuplicateValue?
                && exists col :: col in SaveClashes(old(users), old(users)[k].userId, name, email)
                                 && r.message == ProfileDuplicateMessage(col)
    {
      var clashes := SaveClashes(users, users[k].userId, name, email);
      if clashes != {} {
        var col :| col in clashes;
        return DuplicateValue(ProfileDuplicateMessage(col));
      }
      SaveKeepsKeysUnique(users, k, name, email);
      users := users[k := users[k].(name := name, email := email)];
      profileEditAllowed := false;
      r := ProfileSaved;
    }

    /** `updateProfile` as evidently intended: the code typed on the form is
        `emailCode`. Unchanged email: save at once. Changed email: validate
        the newest pending code for it first. */
    method UpdateProfile(me: nat, name: string, email: string, emailCode: string, action: string,
                         now: int, newCode: string) returns (r: Outcome)
      requires Valid()
      requires action == SendCodeAction ==> IsSixDigitCode(newCode)
      modifies this`codes, this`users, this`profileEditAllowed
      ensures Valid()
      ensures !old(profileEditAllowed) ==> r == EditNotAllowed
      ensures old(profileEditAllowed) && UserById(old(users), me).None? ==> r == UserNotFound
      ensures r !in {EditNotAllowed, UserNotFound} ==> Editing(old(profileEditAllowed), old(users), me)
      ensures r in {EditNotAllowed, UserNotFound, InvalidCode, ExpiredCode, SameEmail, EmailInUse, CodeSent} ==>
                users == old(users) && profileEditAllowed == old(profileEditAllowed)
      ensures r in {EditNotAllowed, UserNotFound, InvalidCode, ExpiredCode, SameEmail, EmailInUse} ==>
                codes == old(codes)
      // the send-code branch
      ensures Editing(old(profileEditAllowed), old(users), me) && action == SendCodeAction ==>
                && r in {SameEmail, EmailInUse, CodeSent}
                && (r == SameEmail <==> email == Requester(old(users), me).email)
                && (r == EmailInUse <==>
                      email != Requester(old(users), me).email && EmailTakenByOther(old(users), email, me))
      ensures r == CodeSent ==> codes == old(codes) + [Issued(email, newCode, now, me)]
      // the final submit with the current email: no code is looked at
      ensures Editing(old(profileEditAllowed), old(users), me) && action != SendCodeAction
              && email == Requester(old(users), me).email ==>
                codes == old(codes) && (r == ProfileSaved || r.DuplicateValue?)
      // the final submit with a new email: the newest pending code decides
      ensures Editing(old(profileEditAllowed), old(users), me) && action != SendCodeAction
              && email != Requester(old(users), me).email ==>
                && (r in {InvalidCode, ExpiredCode, ProfileSaved} || r.DuplicateValue?)
                && (r == InvalidCode <==> Pending(old(codes), email, emailCode) == {})
      ensures r == ExpiredCode ==>
                exists i: nat :: IsNewestPending(old(codes), i, email, emailCode)
                                 && Expired(old(codes)[i], now)
      ensures (r == ProfileSaved || r.DuplicateValue?) && email != Requester(old(users), me).email ==>
                exists i: nat :: IsNewestPending(old(codes), i, email, emailCode)
                                 && Admits(old(codes), i, email, emailCode, now)
                                 && codes == Consume(old(codes), i, now)
      // the save
      ensures r == ProfileSaved ==>
                && SaveClashes(old(users), me, name, email) == {}
                && users == old(users)[UserById(old(users), me).value :=
                                         Requester(old(users), me).(name := name, email := email)]
                && !profileEditAllowed
      ensures r.DuplicateValue? ==>
                && users == old(users) && profileEditAllowed == old(profileEditAllowed)
                && exists col :: col in SaveClashes(old(users), me, name, email)
                                 && r.message == ProfileDuplicateMessage(col)
    {
      if !profileEditAllowed {
        return EditNotAllowed;
      }
      var found := UserById(users, me);
      if found.None? {
        return UserNotFound;
      }
      var k := found.value;
      if action == SendCodeAction {
        r := SendProfileCode(k, email, newCode, now);
        return;
      }
      if email != users[k].email {
        var check := ValidateCode(email, emailCode, now, true);
        if check.NoSuchCode? {
          return InvalidCode;
        }
        if check.TooOld? {
          return ExpiredCode;
        }
      }
      r := SaveProfile(k, name, email);
    }

    /** `updateProfile` as written: the body is destructured into `eemailCode`
        but the lookup reads `emailCode`, which no scope declares. Every
        final submit with a changed email therefore raises a ReferenceError
        before touching any table, and the error handler answers with the
        generic failure, leaving the flag set. */
    method UpdateProfileAsWritten(me: nat, name: string, email: string, action: string,
                                  now: int, newCode: string) returns (r: Outcome)
      requires Valid()
      requires action == SendCodeAction ==> IsSixDigitCode(newCode)
      modifies this`codes, this`users, this`profileEditAllowed
      ensures Valid()
      ensures !old(profileEditAllowed) ==> r == EditNotAllowed
      ensures old(profileEditAllowed) && UserById(old(users), me).None? ==> r == UserNotFound
      ensures r !in {EditNotAllowed, UserNotFound} ==> Editing(old(profileEditAllowed), old(users), me)
      ensures r in {EditNotAllowed, UserNotFound, ProfileUpdateFailed, SameEmail, EmailInUse, CodeSent} ==>
                users == old(users) && profileEditAllowed == old(profileEditAllowed)
      ensures r in {EditNotAllowed, UserNotFound, ProfileUpdateFailed, SameEmail, EmailInUse} ==>
                codes == old(codes)
      // the send-code branch, as in the intended handler
      ensures Editing(old(profileEditAllowed), old(users), me) && action == SendCodeAction ==>
                && r in {SameEmail, EmailInUse, CodeSent}
                && (r == SameEmail <==> email == Requester(old(users), me).email)
                && (r == EmailInUse <==>
                      email != Requester(old(users), me).email && EmailTakenByOther(old(users), email, me))
      ensures r == CodeSent ==> codes == old(codes) + [Issued(email, newCode, now, me)]
      // the final submit with the current email: no code is looked at
      ensures Editing(old(profileEditAllowed), old(users), me) && action != SendCodeAction
              && email == Requester(old(users), me).email ==>
                codes == old(codes) && (r == ProfileSaved || r.DuplicateValue?)
      // the final submit with a new email: the undeclared `emailCode` is read
      ensures Editing(old(profileEditAllowed), old(users), me) && action != SendCodeAction
              && email != Requester(old(users), me).email ==>
                r == ProfileUpdateFailed
      // the save
      ensures r == ProfileSaved ==>
                && SaveClashes(old(users), me, name, email) == {}
                && users == old(users)[UserById(old(users), me).value :=
                                         Requester(old(users), me).(name := name, email := email)]
                && !profileEditAllowed
      ensures r.DuplicateValue? ==>
                && users == old(users) && profileEditAllowed == old(profileEditAllowed)
                && exists col :: col in SaveClashes(old(users), me, name, email)
                                 && r.message == ProfileDuplicateMessage(col)
    {
      if !profileEditAllowed {
        return EditNotAllowed;
      }
      var found := UserById(users, me);
      if found.None? {
        return UserNotFound;
      }
      var k := found.value;
      if action == SendCodeAction {
        r := SendProfileCode(k, email, newCode, now);
        return;
      }
      if email != users[k].email {
        // ReferenceError: emailCode is not defined
        return ProfileUpdateFailed;
      }
      r := SaveProfile(k, name, email);
    }

    /** `changePassword`: the current password first, then the confirmation. */
    method ChangePassword(me: nat, currentPassword: string, newPassword: string, confirmNewPassword: string,
                          compareFault: bool, setFault: bool) returns (r: Outcome)
      requires Valid()
      modifies this`users
      ensures Valid()
      ensures UserById(old(users), me).None? ==> r == UserNotFound
      ensures UserById(old(users), me).Some? ==>
                var u := old(users)[UserById(old(users), me).value];
                r == if compareFault || !PasswordMatches(u, currentPassword) then WrongPassword
                     else if newPassword != confirmNewPassword then PasswordMismatch
                     else if setFault then PasswordSetFailed
                     else PasswordChanged
      ensures r == PasswordChanged ==>
                var k := UserById(old(users), me).value;
                users == old(users)[k := old(users)[k].(credential := Hash(newPassword))]
      ensures r != PasswordChanged ==> users == old(users)
    {
      var k := UserById(users, me);
      if k.None? {
        return UserNotFound;
      }
      if compareFault || !PasswordMatches(users[k.value], currentPassword) {
        return WrongPassword;
      }
      if newPassword != confirmNewPassword {
        return PasswordMismatch;
      }
      if setFault {
        return PasswordSetFailed;
      }
      CredentialChangeKeepsKeysUnique(users, k.value, Hash(newPassword));
      users := users[k.value := users[k.value].(credential := Hash(newPassword))];
      r := PasswordChanged;
    }
  }
}
