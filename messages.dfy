/** The pure parts of the controller: the two switches that turn the column
    of a unique-constraint violation into a message, JavaScript's
    `String.prototype.trim`, and the nickname-availability check. */
module Messages {
  import opened Schema
  import opened Accounts

  const EmailInUseMessage: string := "이미 사용 중인 이메일입니다."
  const LoginInUseMessage: string := "이미 사용 중인 아이디입니다."
  const NameInUseMessage: string := "이미 사용 중인 닉네임입니다."
  const DuplicateValueMessage: string := "중복된 값이 있습니다."

  /** The columns whose violation signup reports by name. */
  const SignupKeyColumns: set<string> := {"email", "id", "name"}
  /** The columns whose violation a profile save reports by name. */
  const ProfileKeyColumns: set<string> := {"email", "name"}

  /** The switch on `err.errors[0].path` in the signup callback. */
  function SignupDuplicateMessage(field: string): (m: string)
    ensures m == DuplicateValueMessage <==> field !in SignupKeyColumns
    ensures field == "email" ==> m == EmailInUseMessage
  {
    match field
    case "email" => EmailInUseMessage
    case "id" => LoginInUseMessage
    case "name" => NameInUseMessage
    case _ => DuplicateValueMessage
  }

  /** The switch on `err.errors[0].path` in the profile-save error handler,
      which has no case for the login id. */
  function ProfileDuplicateMessage(field: string): (m: string)
    ensures m == DuplicateValueMessage <==> field !in ProfileKeyColumns
    ensures field == "email" ==> m == EmailInUseMessage
  {
    match field
    case "email" => EmailInUseMessage
    case "name" => NameInUseMessage
    case _ => DuplicateValueMessage
  }

  /** Signup names the violated column precisely: different named columns
      give different messages. */
  lemma SignupMessageIdentifiesColumn(f: string, g: string)
    requires f in SignupKeyColumns && g in SignupKeyColumns
    ensures SignupDuplicateMessage(f) == SignupDuplicateMessage(g) <==> f == g
  {
  }

  /** The two switches agree on every column except the login id, which a
      profile save reports with the generic message. */
  lemma SwitchesDifferOnlyOnLogin(f: string)
    ensures SignupDuplicateMessage(f) == ProfileDuplicateMessage(f) <==> f != "id"
    ensures ProfileDuplicateMessage("id") == DuplicateValueMessage
  {
  }

  /** The characters `trim` removes: ECMAScript's WhiteSpace and LineTerminator. */
  predicate IsJsWhitespace(c: char)
  {
    || c == '\t' || c == '\n' || c == '\U{000B}' || c == '\U{000C}' || c == '\r'
    || c == ' ' || c == '\U{00A0}' || c == '\U{1680}'
    || ('\U{2000}' <= c <= '\U{200A}')
    || c == '\U{2028}' || c == '\U{2029}' || c == '\U{202F}' || c == '\U{205F}'
    || c == '\U{3000}' || c == '\U{FEFF}'
  }

  predicate AllWhitespace(s: string)
  {
    forall k :: 0 <= k < |s| ==> IsJsWhitespace(s[k])
  }

  /** `s` without its leading whitespace. */
  function TrimStart(s: string): (r: string)
    ensures |r| <= |s| && r == s[|s| - |r|..]
    ensures AllWhitespace(s[..|s| - |r|])
    ensures r == [] || !IsJsWhitespace(r[0])
  {
    if |s| > 0 && IsJsWhitespace(s[0]) then
      var r := TrimStart(s[1..]);
      assert s[..|s| - |r|] == [s[0]] + s[1..][..|s| - 1 - |r|];
      r
    else s
  }

  /** `s` without its trailing whitespace. */
  function TrimEnd(s: string): (r: string)
    ensures |r| <= |s| && r == s[..|r|]
    ensures AllWhitespace(s[|r|..])
    ensures r == [] || !IsJsWhitespace(r[|r| - 1])
  {
    if |s| > 0 && IsJsWhitespace(s[|s| - 1]) then
      var r := TrimEnd(s[..|s| - 1]);
      assert s[|r|..] == s[..|s| - 1][|r|..] + [s[|s| - 1]];
      r
    else s
  }

  /** `String.prototype.trim`. */
  function Trim(s: string): (r: string)
    ensures exists a :: 0 <= a <= |s| - |r| && r == s[a..a + |r|]
                        && AllWhitespace(s[..a]) && AllWhitespace(s[a + |r|..])
    ensures r == [] || (!IsJsWhitespace(r[0]) && !IsJsWhitespace(r[|r| - 1]))
  {
    var t := TrimStart(s);
    var r := TrimEnd(t);
    TrimIsSlice(s, t, r);
    r
  }

  /** A prefix `r` of a suffix `t` of `s` is a slice of `s`, and the
      whitespace after `r` in `t` is the whitespace after it in `s`. */
  lemma TrimIsSlice(s: string, t: string, r: string)
    requires |t| <= |s| && t == s[|s| - |t|..]
    requires |r| <= |t| && r == t[..|r|] && AllWhitespace(t[|r|..])
    ensures var a := |s| - |t|;
            && 0 <= a <= |s| - |r| && r == s[a..a + |r|] && AllWhitespace(s[a + |r|..])
  {
    var a := |s| - |t|;
    assert s[a..a + |r|] == t[..|r|];
    assert s[a + |r|..] == t[|r|..];
  }

  /** `!name.trim()` holds exactly of the strings made only of whitespace. */
  lemma TrimEmptyIffBlank(s: string)
    ensures Trim(s) == [] <==> AllWhitespace(s)
  {
  }

  const EnterNicknameMessage: string := "닉네임을 입력해주세요."
  const NicknameTakenMessage: string := "중복입니다."
  const NicknameAvailableMessage: string := "사용 가능한 닉네임입니다."

  /** The JSON body `{ available, message }` of the nickname check. */
  datatype NicknameReply = NicknameReply(available: bool, message: string)

  /** `checkNickname` for a logged-in user `me` asking about `name` (an
      absent query parameter is the empty string). */
  function CheckNickname(users: seq<User>, name: string, me: nat): (r: NicknameReply)
    ensures r.available <==> !AllWhitespace(name) && !NameTakenByOther(users, name, me)
    ensures AllWhitespace(name) ==> r.message == EnterNicknameMessage
    ensures !AllWhitespace(name) ==>
      r.message == if r.available then NicknameAvailableMessage else NicknameTakenMessage
  {
    TrimEmptyIffBlank(name);
    if name == "" || Trim(name) == "" then NicknameReply(false, EnterNicknameMessage)
    else if NameTakenByOther(users, name, me) then NicknameReply(false, NicknameTakenMessage)
    else NicknameReply(true, NicknameAvailableMessage)
  }

  /** The requester's own nickname is reported available, since the lookup
      excludes the requester's row and nicknames are unique. */
  lemma OwnNicknameAvailable(users: seq<User>, k: nat)
    requires UniqueKeys(users) && k < |users|
    requires !AllWhitespace(users[k].name)
    ensures CheckNickname(users, users[k].name, users[k].userId).available
  {
  }
}
