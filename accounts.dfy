/**
 * The account handlers of src/controllers/authController.js over the users and
 * email_verifications tables: register, verifyEmail, login and resendVerificationCode.
 * Password hashing and comparison, token signing, the random code and the outcome of sending
 * mail are parameters.
 */
module Accounts {
  import opened Wrappers
  import opened Text
  import opened Store
  import Students
  import Rows

  const AdminEmail := "admin@gsm.hs.kr"
  /** A verification code is good for five minutes. */
  const CodeLifetime := 5 * 60 * 1000

  const BadEmail := "이메일 양식이 맞지 않습니다."
  const MissingFields := "모든 필드를 입력해주세요."
  const ShortPassword := "비밀번호는 6자 이상이어야 합니다."
  const EmailTaken := "이미 가입된 이메일입니다."
  const ServerError := "서버 오류가 발생했습니다."
  const MissingCodeFields := "이메일과 인증 코드를 입력해주세요."
  const WrongCode := "인증 코드가 올바르지 않습니다."
  const CodeExpired := "인증 코드가 만료되었습니다."
  const MissingCredentials := "이메일과 비밀번호를 입력해주세요."
  const BadCredentials := "아이디 또는 비밀번호가 잘못 되었습니다. 아이디와 비밀번호를 정확히 입력해 주세요."
  const NotVerified := "이메일 인증을 완료해주세요."
  const UnknownEmail := "가입되지 않은 이메일입니다."
  const AlreadyVerified := "이미 인증된 이메일입니다."
  const SendFailed := "이메일 발송에 실패했습니다."

  /** A body field is truthy: present and not the empty string. */
  predicate Given(f: Option<string>) { f.Some? && f.value != [] }

  /** No two accounts share an e-mail address, and every id is below the next one to be issued. */
  predicate UsersValid(users: seq<User>, nextId: int) {
    && (forall i :: 0 <= i < |users| ==> users[i].id < nextId)
    && (forall i, j :: 0 <= i < j < |users| ==> users[i].email != users[j].email)
  }

  /** `SELECT … FROM users WHERE email = ?`, first row. */
  function FirstByEmail(users: seq<User>, email: string): Option<User> {
    Rows.First(users, (u: User) => u.email == email)
  }

  /** No address that passes validateEmail is the administrator's, in any letter case. */
  lemma StudentIsNotAdmin(email: string)
    requires Students.ValidateEmail(email)
    ensures email != AdminEmail && Lower(email) != AdminEmail
  {
    assert |Lower(email)| == 16;
  }

  // ---------------------------------------------------------------- register

  /**
   * What register stores as the password: the administrator's in plain text, anyone else's
   * hashed. Only student addresses reach the insert, so the plain-text case never applies there.
   */
  function StoredPassword(email: string, password: string, hash: string -> string): (stored: string)
    ensures Students.ValidateEmail(email) ==> stored == hash(password)
  {
    assert Students.ValidateEmail(email) ==> email != AdminEmail by {
      if Students.ValidateEmail(email) { StudentIsNotAdmin(email); }
    }
    if email == AdminEmail then password else hash(password)
  }

  datatype Registration = Registration(userId: int, emailSent: bool)

  /**
   * register: the address format, the required fields, the password length and the uniqueness
   * of the address are checked in that order before anything is written; then the unverified,
   * non-admin account (password hashed, student fields computed from the address) and a code
   * expiring five minutes later are inserted, and both are kept whether or not the mail went out.
   */
  method Register(db: Database, email: Option<string>, password: Option<string>, nickname: Option<string>,
                  hash: string -> string, code: string, sent: bool, now: int)
    returns (r: Answer<Registration>)
    modifies db`users, db`nextUserId, db`codes, db`nextCodeId
    ensures email.None? || !Students.ValidateEmail(email.value) <==> r == Fail(400, BadEmail)
    ensures email.Some? && Students.ValidateEmail(email.value) ==>
              && (!Given(password) || !Given(nickname) <==> r == Fail(400, MissingFields))
              && (Given(password) && Given(nickname) ==>
                    && (|password.value| < 6 <==> r == Fail(400, ShortPassword))
                    && (|password.value| >= 6 ==>
                          (FirstByEmail(old(db.users), email.value).Some? <==> r == Fail(400, EmailTaken))))
    ensures (&& email.Some? && Students.ValidateEmail(email.value) && Given(password) && Given(nickname)
             && |password.value| >= 6 && FirstByEmail(old(db.users), email.value).None?) ==> r.Done?
    ensures r.Fail? ==> unchanged(db)
    ensures r.Done? ==>
              && r.value == Registration(old(db.nextUserId), sent)
              && db.users == old(db.users) + [User(old(db.nextUserId), email.value, hash(password.value), nickname.value,
                                                   false, 0, Students.CalculateStudentInfo(email.value), None, now)]
              && db.codes == old(db.codes) + [VerificationCode(old(db.nextCodeId), email.value, code, now + CodeLifetime)]
              && db.nextUserId == old(db.nextUserId) + 1 && db.nextCodeId == old(db.nextCodeId) + 1
    ensures UsersValid(old(db.users), old(db.nextUserId)) ==> UsersValid(db.users, db.nextUserId)
  {
    if email.None? || !Students.ValidateEmail(email.value) {
      return Fail(400, BadEmail);
    }
    if !Given(email) || !Given(password) || !Given(nickname) {
      return Fail(400, MissingFields);
    }
    if |password.value| < 6 {
      return Fail(400, ShortPassword);
    }
    if FirstByEmail(db.users, email.value).Some? {
      return Fail(400, EmailTaken);
    }
    StudentIsNotAdmin(email.value);
    var stored := StoredPassword(email.value, password.value, hash);
    var user := User(db.nextUserId, email.value, stored, nickname.value, false, 0,
                     Students.CalculateStudentInfo(email.value), None, now);
    db.users := db.users + [user];
    db.nextUserId := db.nextUserId + 1;
    db.codes := db.codes + [VerificationCode(db.nextCodeId, email.value, code, now + CodeLifetime)];
    db.nextCodeId := db.nextCodeId + 1;
    r := Done(Registration(user.id, sent));
  }

  // ---------------------------------------------------------------- verifyEmail

  predicate CodeMatches(v: VerificationCode, email: string, code: string) {
    v.email == email && v.code == code
  }

  /** `ORDER BY expires_at DESC LIMIT 1` over the matching codes: the latest expiry among them. */
  function LatestExpiry(codes: seq<VerificationCode>, email: string, code: string): (r: Option<int>)
    ensures r.None? <==> forall i :: 0 <= i < |codes| ==> !CodeMatches(codes[i], email, code)
    ensures r.Some? ==>
              && (exists i :: 0 <= i < |codes| && CodeMatches(codes[i], email, code) && codes[i].expiresAt == r.value)
              && forall i :: 0 <= i < |codes| && CodeMatches(codes[i], email, code) ==> codes[i].expiresAt <= r.value
  {
    if codes == [] then None
    else
      var rest := LatestExpiry(codes[1..], email, code);
      assert forall i :: 1 <= i < |codes| ==> codes[i] == codes[1..][i - 1];
      if !CodeMatches(codes[0], email, code) then rest
      else if rest.None? || rest.value <= codes[0].expiresAt then Some(codes[0].expiresAt)
      else rest
  }

  /**
   * The checks of verifyEmail: both fields given, some code matching both, and the latest
   * matching one not yet expired. The answer succeeds exactly when some matching code has not
   * expired, so older codes issued by a resend do not get in the way.
   */
  function CheckCode(codes: seq<VerificationCode>, email: Option<string>, code: Option<string>, now: int): (r: Answer<string>)
    ensures !Given(email) || !Given(code) <==> r == Fail(400, MissingCodeFields)
    ensures Given(email) && Given(code) ==>
              && ((forall i :: 0 <= i < |codes| ==> !CodeMatches(codes[i], email.value, code.value)) <==> r == Fail(400, WrongCode))
              && ((exists i :: 0 <= i < |codes| && CodeMatches(codes[i], email.value, code.value) && now <= codes[i].expiresAt)
                  <==> r == Done(email.value))
    ensures r.Fail? ==> r.status == 400 && r.error in {MissingCodeFields, WrongCode, CodeExpired}
  {
    if !Given(email) || !Given(code) then Fail(400, MissingCodeFields)
    else
      match LatestExpiry(codes, email.value, code.value)
      case None => Fail(400, WrongCode)
      case Some(expiresAt) => if now > expiresAt then Fail(400, CodeExpired) else Done(email.value)
  }

  /** `UPDATE users SET is_verified = true WHERE email = ?`. */
  function MarkVerified(users: seq<User>, email: string): (r: seq<User>)
    ensures |r| == |users|
    ensures forall i :: 0 <= i < |users| ==>
              r[i] == (if users[i].email == email then users[i].(isVerified := true) else users[i])
  {
    seq(|users|, i requires 0 <= i < |users| => if users[i].email == email then users[i].(isVerified := true) else users[i])
  }

  predicate OtherAddress(v: VerificationCode, email: string) { v.email != email }

  function OtherAddresses(email: string): VerificationCode -> bool {
    v => OtherAddress(v, email)
  }

  /**
   * `DELETE FROM email_verifications WHERE email = ?`: every code of the address goes, used or
   * not; the other codes stay in table order, each as often as before.
   */
  function DropCodes(codes: seq<VerificationCode>, email: string): (r: seq<VerificationCode>)
    ensures forall i :: 0 <= i < |r| ==> r[i] in codes && r[i].email != email
    ensures forall i :: 0 <= i < |codes| && codes[i].email != email ==> codes[i] in r
    ensures r == Rows.Filter(codes, OtherAddresses(email))
    ensures forall v :: multiset(r)[v] == if v.email != email then multiset(codes)[v] else 0
  {
    Rows.FilterMultiset(codes, OtherAddresses(email));
    Rows.Filter(codes, OtherAddresses(email))
  }

  /** verifyEmail: on success the account is verified and all its codes are gone; otherwise nothing changes. */
  method VerifyEmail(db: Database, email: Option<string>, code: Option<string>, now: int) returns (r: Answer<string>)
    modifies db`users, db`codes
    ensures r == CheckCode(old(db.codes), email, code, now)
    ensures r.Fail? ==> unchanged(db)
    ensures r.Done? ==> db.users == MarkVerified(old(db.users), email.value) && db.codes == DropCodes(old(db.codes), email.value)
  {
    r := CheckCode(db.codes, email, code, now);
    if r.Done? {
      db.users := MarkVerified(db.users, email.value);
      db.codes := DropCodes(db.codes, email.value);
    }
  }

  /** A code issued at `issued` still verifies its address up to and including five minutes later. */
  lemma FreshCodeVerifies(codes: seq<VerificationCode>, id: int, email: string, code: string, issued: int, now: int)
    requires VerificationCode(id, email, code, issued + CodeLifetime) in codes
    requires email != [] && code != [] && now <= issued + CodeLifetime
    ensures CheckCode(codes, Some(email), Some(code), now) == Done(email)
  {
    var i :| 0 <= i < |codes| && codes[i] == VerificationCode(id, email, code, issued + CodeLifetime);
    assert CodeMatches(codes[i], email, code) && now <= codes[i].expiresAt;
  }

  // ---------------------------------------------------------------- login

  /** The account is treated as the administrator's: the flag is 1, or the address is the administrator's in any letter case. */
  predicate IsAdminAccount(u: User) {
    u.isAdmin == 1 || u.email == AdminEmail || Lower(u.email) == AdminEmail
  }

  /**
   * The password check: the administrator is compared in plain text first and then with
   * bcrypt, where an exception counts as a mismatch; everyone else only with bcrypt.
   * `compare` gives `None` where bcrypt.compare throws.
   */
  predicate PasswordAccepted(u: User, password: string, compare: (string, string) -> Option<bool>) {
    if IsAdminAccount(u) then u.password == password || compare(password, u.password) == Some(true)
    else compare(password, u.password) == Some(true)
  }

  datatype LoginReply = LoginReply(token: string, id: int, email: string, nickname: string, isAdmin: bool)

  /**
   * login: the fields, then the account; an unverified account that is not the administrator's
   * is refused before its password is looked at; then the password decides. An exception from
   * bcrypt on a non-admin account is a server error.
   */
  function Login(db: Database, email: Option<string>, password: Option<string>,
                 compare: (string, string) -> Option<bool>, sign: int -> string): (r: Answer<LoginReply>)
    reads db`users
    ensures !Given(email) || !Given(password) <==> r == Fail(400, MissingCredentials)
    ensures Given(email) && Given(password) ==>
              match FirstByEmail(db.users, email.value)
              case None => r == Fail(401, BadCredentials)
              case Some(u) =>
                && (!IsAdminAccount(u) && !u.isVerified <==> r == Fail(401, NotVerified))
                && (r == Fail(500, ServerError) <==>
                      !IsAdminAccount(u) && u.isVerified && compare(password.value, u.password).None?)
                && (r == Fail(401, BadCredentials) <==>
                      (IsAdminAccount(u) || (u.isVerified && compare(password.value, u.password).Some?))
                      && !PasswordAccepted(u, password.value, compare))
                && (r.Done? <==> (IsAdminAccount(u) || u.isVerified) && PasswordAccepted(u, password.value, compare))
                && (r.Done? ==> r.value == LoginReply(sign(u.id), u.id, u.email, u.nickname, IsAdminAccount(u)))
  {
    if !Given(email) || !Given(password) then Fail(400, MissingCredentials)
    else
      match FirstByEmail(db.users, email.value)
      case None => Fail(401, BadCredentials)
      case Some(u) =>
        var admin := IsAdminAccount(u);
        if !admin && !u.isVerified then Fail(401, NotVerified)
        else if !admin && compare(password.value, u.password).None? then Fail(500, ServerError)
        else if !PasswordAccepted(u, password.value, compare) then Fail(401, BadCredentials)
        else Done(LoginReply(sign(u.id), u.id, u.email, u.nickname, admin))
  }

  /** A freshly registered student cannot log in before verifying, whatever password is given. */
  lemma RegisteredMustVerify(db: Database, u: User, password: string,
                             compare: (string, string) -> Option<bool>, sign: int -> string)
    requires FirstByEmail(db.users, u.email) == Some(u)
    requires Students.ValidateEmail(u.email) && u.isAdmin == 0 && !u.isVerified && password != []
    ensures Login(db, Some(u.email), Some(password), compare, sign) == Fail(401, NotVerified)
  {
    StudentIsNotAdmin(u.email);
  }

  // ---------------------------------------------------------------- resendVerificationCode

  /**
   * resendVerificationCode: a valid address of an unverified account gets a new code while its
   * old codes stay; a failed send is reported as success in development mode, otherwise as 500
   * with the code kept.
   */
  method Resend(db: Database, email: Option<string>, code: string, sent: bool, development: bool, now: int)
    returns (r: Answer<bool>)
    modifies db`codes, db`nextCodeId
    ensures !Given(email) || !Students.ValidateEmail(email.value) <==> r == Fail(400, BadEmail)
    ensures Given(email) && Students.ValidateEmail(email.value) ==>
              match FirstByEmail(old(db.users), email.value)
              case None => r == Fail(404, UnknownEmail)
              case Some(u) => u.isVerified <==> r == Fail(400, AlreadyVerified)
    ensures r == Fail(400, BadEmail) || r == Fail(404, UnknownEmail) || r == Fail(400, AlreadyVerified) ==> unchanged(db)
    ensures r.Done? || r == Fail(500, SendFailed) ==>
              && db.codes == old(db.codes) + [VerificationCode(old(db.nextCodeId), email.value, code, now + CodeLifetime)]
              && db.nextCodeId == old(db.nextCodeId) + 1
    ensures r == Fail(500, SendFailed) <==>
              (&& Given(email) && Students.ValidateEmail(email.value)
               && FirstByEmail(old(db.users), email.value).Some? && !FirstByEmail(old(db.users), email.value).value.isVerified
               && !sent && !development)
    ensures r.Done? ==> r.value == sent
    ensures (&& Given(email) && Students.ValidateEmail(email.value)
             && FirstByEmail(old(db.users), email.value).Some? && !FirstByEmail(old(db.users), email.value).value.isVerified
             && (sent || development)) ==> r == Done(sent)
  {
    if !Given(email) || !Students.ValidateEmail(email.value) {
      return Fail(400, BadEmail);
    }
    var u := FirstByEmail(db.users, email.value);
    if u.None? {
      return Fail(404, UnknownEmail);
    }
    if u.value.isVerified {
      return Fail(400, AlreadyVerified);
    }
    db.codes := db.codes + [VerificationCode(db.nextCodeId, email.value, code, now + CodeLifetime)];
    db.nextCodeId := db.nextCodeId + 1;
    if !sent && !development {
      return Fail(500, SendFailed);
    }
    r := Done(sent);
  }
}
