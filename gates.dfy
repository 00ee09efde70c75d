/**
 * The request gates: `authenticate` of src/middleware/auth.js, the `authenticate` and
 * `checkAdmin` pair of src/routes/reports.js and the single `checkAdmin` of src/routes/admin.js.
 * A gate answers `Done(userId)` when it calls `next()` with `req.userId` set, or the error it
 * sends. The token verifier is a parameter.
 */
module Gates {
  import opened Wrappers
  import opened Text
  import opened Store

  const Scheme := "Bearer "
  const AuthRequired := "인증이 필요합니다."
  const InvalidToken := "유효하지 않은 토큰입니다."
  const AdminRequired := "관리자 권한이 필요합니다."
  const ServerError := "서버 오류가 발생했습니다."
  /** The body of Express's default handler for an exception nothing catches. */
  const Uncaught := "Internal Server Error"

  // ---------------------------------------------------------------- src/middleware/auth.js

  /** The header must start with exactly `Bearer `; the token is what follows those seven characters. */
  function BearerToken(header: Option<string>): (token: Option<string>)
    ensures token.Some? <==> header.Some? && StartsWith(header.value, Scheme)
    ensures token.Some? ==> header.value == Scheme + token.value
  {
    if header.None? || header.value == [] || !StartsWith(header.value, Scheme) then None
    else
      assert header.value == header.value[..7] + header.value[7..];
      Some(header.value[7..])
  }

  /**
   * authenticate: 401 without a `Bearer ` header or for a falsy verification result; an exception
   * from the verifier is not caught and reaches Express's default handler; otherwise `next()` with
   * whatever `userId` the claims hold, present or not.
   */
  function Authenticate(header: Option<string>, verify: string -> Decoded): (r: Answer<Option<int>>)
    ensures BearerToken(header).None? <==> r == Fail(401, AuthRequired)
    ensures BearerToken(header).Some? ==>
              match verify(BearerToken(header).value)
              case Invalid => r == Fail(401, InvalidToken)
              case Throws => r == Fail(500, Uncaught)
              case Claims(u) => r == Done(u)
  {
    match BearerToken(header)
    case None => Fail(401, AuthRequired)
    case Some(token) =>
      match verify(token)
      case Invalid => Fail(401, InvalidToken)
      case Throws => Fail(500, Uncaught)
      case Claims(u) => Done(u)
  }

  // ---------------------------------------------------------------- src/routes/reports.js, src/routes/admin.js

  /**
   * `authorization?.replace('Bearer ', '')`: the first occurrence of `Bearer `, wherever it is,
   * is cut out; a header without one is taken whole. A missing header gives no token.
   */
  function StrippedToken(header: Option<string>): (token: Option<string>)
    ensures header.None? <==> token.None?
    ensures header.Some? && IndexOf(header.value, Scheme).None? ==> token == header
    ensures header.Some? && IndexOf(header.value, Scheme).Some? ==>
              var i := IndexOf(header.value, Scheme).value;
              token.value == header.value[..i] + header.value[i + 7..]
  {
    match header
    case None => None
    case Some(h) => Some(ReplaceFirst(h, Scheme, []))
  }

  /** The reports router's authenticate: every failure, an exception included, is a 401; the claims must carry a truthy user id. */
  function ReportsAuthenticate(header: Option<string>, verify: string -> Decoded): (r: Answer<int>)
    ensures r.Fail? ==> r == Fail(401, AuthRequired)
    ensures r.Done? <==>
              && StrippedToken(header).Some? && StrippedToken(header).value != []
              && verify(StrippedToken(header).value).Claims?
              && TruthyId(verify(StrippedToken(header).value).userId)
    ensures r.Done? ==> Some(r.value) == verify(StrippedToken(header).value).userId
  {
    var token := StrippedToken(header);
    if token.None? || token.value == [] then Fail(401, AuthRequired)
    else
      match verify(token.value)
      case Claims(u) => if TruthyId(u) then Done(u.value) else Fail(401, AuthRequired)
      case _ => Fail(401, AuthRequired)
  }

  /** The `is_admin` column is truthy: an account row with a non-zero flag. */
  predicate IsAdminRow(users: seq<User>, id: int) {
    FirstUser(users, id).Some? && FirstUser(users, id).value.isAdmin != 0
  }

  /** checkAdmin of the reports router: 403 unless the caller's row exists with a truthy `is_admin`. */
  function CheckAdmin(users: seq<User>, userId: int): (r: Answer<int>)
    ensures r.Done? <==> exists i :: 0 <= i < |users| && users[i].id == userId && users[i] == FirstUser(users, userId).value && users[i].isAdmin != 0
    ensures r.Fail? ==> r == Fail(403, AdminRequired)
    ensures r.Done? ==> r.value == userId
  {
    if IsAdminRow(users, userId) then
      var u := FirstUser(users, userId).value;
      var i :| 0 <= i < |users| && users[i] == u;
      Done(userId)
    else Fail(403, AdminRequired)
  }

  datatype ReportRoute = CreateReportRoute | ListReportsRoute | UpdateReportStatusRoute

  /** The reports routes: creating needs a signed-in caller, listing and reviewing need an administrator too. */
  function ReportsGate(route: ReportRoute, header: Option<string>, verify: string -> Decoded, users: seq<User>): (r: Answer<int>)
    ensures ReportsAuthenticate(header, verify).Fail? ==> r == Fail(401, AuthRequired)
    ensures route.CreateReportRoute? ==> r == ReportsAuthenticate(header, verify)
    ensures !route.CreateReportRoute? && ReportsAuthenticate(header, verify).Done? ==>
              r == CheckAdmin(users, ReportsAuthenticate(header, verify).value)
  {
    match ReportsAuthenticate(header, verify)
    case Fail(s, e) => Fail(s, e)
    case Done(u) => if route.CreateReportRoute? then Done(u) else CheckAdmin(users, u)
  }

  /**
   * checkAdmin of the admin router, in front of every admin route: 401 for a missing token or
   * claims without a truthy user id, 403 for anyone but an administrator, and 500 for any
   * exception, the verifier's included.
   */
  function AdminGate(header: Option<string>, verify: string -> Decoded, users: seq<User>): (r: Answer<int>)
    ensures StrippedToken(header).None? || StrippedToken(header).value == [] ==> r == Fail(401, AuthRequired)
    ensures StrippedToken(header).Some? && StrippedToken(header).value != [] ==>
              match verify(StrippedToken(header).value)
              case Throws => r == Fail(500, ServerError)
              case Invalid => r == Fail(401, AuthRequired)
              case Claims(u) => if TruthyId(u) then r == CheckAdmin(users, u.value) else r == Fail(401, AuthRequired)
  {
    var token := StrippedToken(header);
    if token.None? || token.value == [] then Fail(401, AuthRequired)
    else
      match verify(token.value)
      case Throws => Fail(500, ServerError)
      case Invalid => Fail(401, AuthRequired)
      case Claims(u) => if TruthyId(u) then CheckAdmin(users, u.value) else Fail(401, AuthRequired)
  }

  /** The admin router and the reports router's admin routes let exactly the same callers through; they differ only in answering a verifier exception with 500 instead of 401. */
  lemma AdminGatesAgree(header: Option<string>, verify: string -> Decoded, users: seq<User>)
    ensures AdminGate(header, verify, users).Done? <==> ReportsGate(ListReportsRoute, header, verify, users).Done?
    ensures AdminGate(header, verify, users).Done? ==>
              AdminGate(header, verify, users) == ReportsGate(ListReportsRoute, header, verify, users)
    ensures StrippedToken(header).Some? && StrippedToken(header).value != [] && !verify(StrippedToken(header).value).Throws? ==>
              AdminGate(header, verify, users) == ReportsGate(UpdateReportStatusRoute, header, verify, users)
  {
  }

  /** For a well-formed `Bearer <token>` header both extraction rules hand the verifier the same token. */
  lemma {:induction false} TokenRulesAgree(token: string)
    ensures BearerToken(Some(Scheme + token)) == Some(token)
    ensures StrippedToken(Some(Scheme + token)) == Some(token)
  {
    ReplaceFirstOfPrefixed(Scheme, token);
  }

  /**
   * The strict rule implies the loose one: whoever passes auth.js with a non-empty token and a
   * truthy user id also passes the reports router's authenticate, with the same id.
   */
  lemma StrictImpliesLoose(header: Option<string>, verify: string -> Decoded)
    requires Authenticate(header, verify).Done? && TruthyId(Authenticate(header, verify).value)
    requires BearerToken(header).value != []
    ensures ReportsAuthenticate(header, verify) == Done(Authenticate(header, verify).value.value)
  {
    TokenRulesAgree(BearerToken(header).value);
  }

  /**
   * The loose rule is wider: a bare token with no scheme at all is handed to the verifier whole,
   * where auth.js refuses the header outright.
   */
  lemma {:induction false} BareTokenOnlyLoose(token: string)
    requires token != [] && IndexOf(token, Scheme).None?
    ensures StrippedToken(Some(token)) == Some(token)
    ensures BearerToken(Some(token)) == None
  {
    assert StartsWith(token, Scheme) ==> OccursAt(token, Scheme, 0);
  }
}
