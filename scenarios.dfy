/** Concrete request sequences against a store, proved from the handlers'
    contracts alone. */
module Scenarios {
  import opened Wrappers
  import opened Schema
  import opened Verification
  import opened Accounts
  import opened Messages
  import opened UserController

  const T0: int := 1_700_000_000_000

  function Foo(): User
  {
    User(1, "foo", "Foo", "foo@example.com", Hash("pw"), DefaultRankId, Y)
  }

  /** A code issued at T0 is accepted 299 s later and refused when used again. */
  method CodeIsSingleUse() returns (sent: Outcome, first: Outcome, second: Outcome)
    ensures sent == CodeSent && first == ResetFormShown && second == InvalidCode
  {
    var s := new Store([], [Foo()], 2);
    assert UserByEmail(s.users, "foo@example.com") == Some(0);
    sent := s.SendResetCode("foo@example.com", "123456", T0);
    var issued := s.codes;
    IssueAddsOneRow([], "foo@example.com", "123456", T0, 1, "foo@example.com", "123456");
    assert Pending(issued, "foo@example.com", "123456") == {0};
    first := s.VerifyResetCode("foo@example.com", "123456", T0 + 299_000);
    ConsumeRemovesOnlyThatRow(issued, 0, T0 + 299_000, "foo@example.com", "123456");
    second := s.VerifyResetCode("foo@example.com", "123456", T0 + 299_000);
  }

  /** A code issued at T0 is refused 301 s later, and in a second store in the
      same state it is still accepted at exactly 300 s. */
  method CodeExpiresAfterFiveMinutes() returns (late: Outcome, boundary: Outcome)
    ensures late == ExpiredCode && boundary == ResetFormShown
  {
    var rows := [Issued("foo@example.com", "123456", T0, 1)];
    assert Pending(rows, "foo@example.com", "123456") == {0};
    var s := new Store(rows, [Foo()], 2);
    assert UserByEmail(s.users, "foo@example.com") == Some(0);
    late := s.VerifyResetCode("foo@example.com", "123456", T0 + 301_000);
    var t := new Store(rows, [Foo()], 2);
    boundary := t.VerifyResetCode("foo@example.com", "123456", T0 + 300_000);
  }

  /** Two signups with the login id "alice": when `register`'s own checks
      raise no error (`fault` is false), the second is told the id is taken. */
  method SecondAliceIsRefused() returns (first: Outcome, second: Outcome)
    ensures first == Registered && second == DuplicateValue(LoginInUseMessage)
  {
    var rows := [CodeRecord("a@example.com", "111111", T0, N, None, None),
                 CodeRecord("b@example.com", "222222", T0, N, None, None)];
    var s := new Store(rows, [], 1);
    assert Pending(rows, "a@example.com", "111111") == {0};
    assert Pending(rows, "b@example.com", "222222") == {1};
    assert RegisterClashes([], "alice", "Alice", "a@example.com") == {};
    first := s.Signup(SignupForm("Alice", "alice", "a@example.com", "pw", "pw", "111111", true, true), T0 + 1000, false);
    assert s.users == [User(1, "alice", "Alice", "a@example.com", Hash("pw"), DefaultRankId, Y)];
    var alice := s.users;
    assert alice[0].login == "alice" && alice[0].email != "b@example.com" && alice[0].name != "Alice B";
    assert RegisterClashes(alice, "alice", "Alice B", "b@example.com") == {"id"};
    assert s.codes[1] == rows[1];
    assert Pending(s.codes, "b@example.com", "222222") == {1};
    second := s.Signup(SignupForm("Alice B", "alice", "b@example.com", "pw2", "pw2", "222222", true, true), T0 + 2000, false);
  }

  /** The final reset step changes the password of any existing account even
      when no code was ever issued or accepted for it. */
  method ResetNeedsNoCode() returns (r: Outcome, matches: bool)
    ensures r == PasswordChanged && matches
  {
    var s := new Store([], [Foo()], 2);
    assert UserByEmail(s.users, "foo@example.com") == Some(0);
    r := s.ResetPasswordFinal("foo@example.com", "new", "new", false);
    matches := PasswordMatches(s.users[0], "new");
  }

  /** A full email change as the handler is written: the code is sent, but
      the final submit fails before any table is touched and the gate stays open. */
  method EmailChangeAsWritten() returns (sent: Outcome, submit: Outcome, gateAfter: bool)
    ensures sent == CodeSent && submit == ProfileUpdateFailed && gateAfter
  {
    var s := new Store([], [Foo()], 2);
    assert UserById([Foo()], 1) == Some(0);
    var unlocked := s.CheckPasswordForEdit(1, "pw", false);
    sent := s.UpdateProfileAsWritten(1, "Foo", "new@example.com", SendCodeAction, T0, "654321");
    submit := s.UpdateProfileAsWritten(1, "Foo", "new@example.com", "submit", T0 + 1000, "");
    gateAfter := s.profileEditAllowed;
  }

  /** As written, a nickname change that keeps the email still saves,
      since the undeclared field is read only for a new email. */
  method NicknameChangeAsWritten() returns (submit: Outcome, gateAfter: bool, saved: string)
    ensures submit == ProfileSaved && !gateAfter && saved == "Bar"
  {
    var s := new Store([], [Foo()], 2);
    assert UserById([Foo()], 1) == Some(0);
    var unlocked := s.CheckPasswordForEdit(1, "pw", false);
    assert SaveClashes([Foo()], 1, "Bar", "foo@example.com") == {};
    submit := s.UpdateProfileAsWritten(1, "Bar", "foo@example.com", "submit", T0, "");
    gateAfter := s.profileEditAllowed;
    saved := s.users[0].name;
  }

  /** The same email change as intended: the submitted code is accepted, the
      new email is saved and the gate closes. */
  method EmailChangeAsIntended() returns (sent: Outcome, submit: Outcome, gateAfter: bool, saved: string)
    ensures sent == CodeSent && submit == ProfileSaved && !gateAfter && saved == "new@example.com"
  {
    var s := new Store([], [Foo()], 2);
    assert UserById([Foo()], 1) == Some(0);
    var unlocked := s.CheckPasswordForEdit(1, "pw", false);
    assert s.profileEditAllowed && s.users == [Foo()];
    sent := s.UpdateProfile(1, "Foo", "new@example.com", "", SendCodeAction, T0, "654321");
    assert s.profileEditAllowed && s.users == [Foo()];
    assert s.codes == [Issued("new@example.com", "654321", T0, 1)];
    assert Pending(s.codes, "new@example.com", "654321") == {0};
    assert SaveClashes([Foo()], 1, "Foo", "new@example.com") == {};
    submit := s.UpdateProfile(1, "Foo", "new@example.com", "654321", "submit", T0 + 1000, "");
    gateAfter := s.profileEditAllowed;
    saved := s.users[0].email;
  }

  /** Without the re-entered password neither the edit form nor a save is reachable. */
  method GateClosedByDefault() returns (form: Outcome, save: Outcome)
    ensures form == EditNotAllowed && save == EditNotAllowed
  {
    var s := new Store([], [Foo()], 2);
    form := s.ShowEditProfileForm(1);
    save := s.UpdateProfile(1, "Bar", "foo@example.com", "", "submit", T0, "");
  }
}
