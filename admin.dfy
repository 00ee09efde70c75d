/**
 * src/controllers/adminController.js, behind the admin router's gate: the user list with its
 * nickname cleanup, the product list, and deletion of users and products. The administrator's
 * id is the one the gate passes on.
 */
module Admin {
  import opened Wrappers
  import opened Text
  import opened Rows
  import opened Store
  import Products

  const SelfDelete := "자기 자신은 삭제할 수 없습니다."

  // ---------------------------------------------------------------- nickname cleanup

  /** `s[i..]` matches `\s*0\s*$`: white space, one `0`, white space, then the end. */
  predicate ZeroTail(s: string, i: int) {
    0 <= i <= |s| && exists k :: i <= k < |s| && s[k] == '0' && forall j :: i <= j < |s| && j != k ==> IsSpace(s[j])
  }

  /**
   * `replace(/\s*0\s*$/, '')`: cut `s` at the leftmost position where the pattern matches, or
   * leave it whole when it matches nowhere.
   */
  function DropTrailingZero(s: string): (r: string)
    ensures |r| <= |s| && r == s[..|r|]
    ensures (exists i :: ZeroTail(s, i)) ==> ZeroTail(s, |r|) && forall j :: 0 <= j < |r| ==> !ZeroTail(s, j)
    ensures (forall i :: !ZeroTail(s, i)) ==> r == s
  {
    var t := TrimEnd(s);
    if t != [] && t[|t| - 1] == '0' then
      var r := TrimEnd(t[..|t| - 1]);
      assert s[|t| - 1] == '0';
      assert ZeroTail(s, |r|) by {
        assert forall j :: |r| <= j < |t| - 1 ==> IsSpace(s[j]) by {
          forall j | |r| <= j < |t| - 1 ensures IsSpace(s[j]) {
            assert s[j] == t[..|t| - 1][j];
          }
        }
      }
      forall j | 0 <= j < |r| ensures !ZeroTail(s, j) {
        assert s[|r| - 1] == r[|r| - 1] && !IsSpace(s[|r| - 1]);
      }
      r
    else
      s
  }

  /** The nickname shown in the user list: a non-empty one loses one trailing `0` with the white space around it and is trimmed. */
  function CleanNickname(nickname: string): (r: string)
    ensures nickname == [] ==> r == []
    ensures nickname != [] ==> r == Trim(DropTrailingZero(nickname))
  {
    if nickname == [] then nickname else Trim(DropTrailingZero(nickname))
  }

  /** A nickname with a `0` appended comes back as the trimmed original. */
  lemma CleanDropsOneZero(nickname: string)
    requires nickname == [] || !IsSpace(nickname[|nickname| - 1])
    ensures CleanNickname(nickname + "0") == Trim(nickname)
  {
    var s := nickname + "0";
    assert s[..|s| - 1] == nickname;
    assert TrimEnd(s) == s;
    assert TrimEnd(nickname) == nickname;
  }

  /** Only one `0` goes: a nickname that itself ends in `0` keeps that one. */
  lemma CleanKeepsEarlierZero(nickname: string)
    ensures CleanNickname(nickname + "0" + "0") == Trim(nickname + "0")
  {
    var n := nickname + "0";
    assert n[|n| - 1] == '0';
    CleanDropsOneZero(n);
  }

  /** The pattern needs a `0` as the last non-blank character: without one the text is left whole. */
  lemma KeptWithoutZero(s: string)
    requires TrimEnd(s) == [] || TrimEnd(s)[|TrimEnd(s)| - 1] != '0'
    ensures DropTrailingZero(s) == s
  {
    var t := TrimEnd(s);
    assert !(t != [] && t[|t| - 1] == '0');
  }

  /** A nickname whose last non-blank character is not `0` is only trimmed. */
  lemma CleanWithoutZero(nickname: string)
    requires nickname != []
    requires TrimEnd(nickname) == [] || TrimEnd(nickname)[|TrimEnd(nickname)| - 1] != '0'
    ensures CleanNickname(nickname) == Trim(nickname)
  {
    KeptWithoutZero(nickname);
  }

  // ---------------------------------------------------------------- getAllUsers, getAllProducts

  /** The columns getAllUsers selects: the password hash and the student columns stay behind. */
  datatype UserRow = UserRow(id: int, email: string, nickname: string, isVerified: bool, isAdmin: int, createdAt: int)

  /** `ORDER BY created_at DESC` as an ascending key: newest first. */
  function NegCreatedRow(u: UserRow): int { -u.createdAt }

  /** One account as listed: the selected columns, with the nickname cleaned. */
  function Cleaned(u: User): (c: UserRow)
    ensures c.id == u.id && c.email == u.email && c.createdAt == u.createdAt
    ensures c.nickname == CleanNickname(u.nickname)
  {
    UserRow(u.id, u.email, CleanNickname(u.nickname), u.isVerified, u.isAdmin, u.createdAt)
  }

  function CleanAll(users: seq<User>): (r: seq<UserRow>)
    ensures |r| == |users| && forall i :: 0 <= i < |r| ==> r[i] == Cleaned(users[i])
  {
    seq(|users|, i requires 0 <= i < |users| => Cleaned(users[i]))
  }

  /**
   * getAllUsers: every account once, newest first, with its nickname cleaned. Cleaning keeps
   * `created_at`, so sorting the cleaned rows gives the same orders as cleaning the sorted ones.
   */
  function AllUsers(users: seq<User>): (r: seq<UserRow>)
    ensures |r| == |users|
    ensures multiset(r) == multiset(CleanAll(users))
    ensures forall i, j :: 0 <= i < j < |r| ==> r[i].createdAt >= r[j].createdAt
  {
    var r := SortBy(CleanAll(users), NegCreatedRow);
    forall i, j | 0 <= i < j < |r| ensures r[i].createdAt >= r[j].createdAt {
      assert NegCreatedRow(r[i]) <= NegCreatedRow(r[j]);
    }
    r
  }

  /** The user list holds exactly the cleaned accounts: each row is one, and each account has a row. */
  lemma AllUsersListsEveryAccount(users: seq<User>)
    ensures forall i :: 0 <= i < |AllUsers(users)| ==> exists j :: 0 <= j < |users| && AllUsers(users)[i] == Cleaned(users[j])
    ensures forall j :: 0 <= j < |users| ==> exists i :: 0 <= i < |AllUsers(users)| && AllUsers(users)[i] == Cleaned(users[j])
  {
    var r, all := AllUsers(users), CleanAll(users);
    forall i | 0 <= i < |r| ensures exists j :: 0 <= j < |users| && r[i] == Cleaned(users[j]) {
      PermutedRow(r, all, i);
      var j :| 0 <= j < |all| && all[j] == r[i];
    }
    forall j | 0 <= j < |users| ensures exists i :: 0 <= i < |r| && r[i] == Cleaned(users[j]) {
      PermutedRow(all, r, j);
      var i :| 0 <= i < |r| && r[i] == all[j];
    }
  }

  /** getAllProducts: every product, newest first. */
  function AllProducts(products: seq<Product>): (r: seq<Product>)
    ensures multiset(r) == multiset(products)
    ensures forall i, j :: 0 <= i < j < |r| ==> r[i].createdAt >= r[j].createdAt
  {
    var r := SortBy(products, Products.NegCreated);
    assert SortedBy(r, Products.NegCreated);
    r
  }

  // ---------------------------------------------------------------- MySQL's reading of an id text

  /** The white space MySQL skips in front of a number: space, tab, line feed, vertical tab, form feed, return. */
  predicate SqlSpace(c: char) {
    c == ' ' || (0x09 <= c as int <= 0x0D)
  }

  function SkipSqlSpace(s: string): (r: string)
    ensures |r| <= |s| && r == s[|s| - |r|..]
    ensures r == [] || !SqlSpace(r[0])
  {
    if s != [] && SqlSpace(s[0]) then SkipSqlSpace(s[1..]) else s
  }

  /** A decimal number as sign, digits and a power of ten: its value is `±mantissa × 10^scale`. */
  datatype SqlNumber = SqlNumber(negative: bool, mantissa: nat, scale: int)

  /** The exponent part `e±digits` at the front of `rest`; 0 when there is none. */
  function Exponent(rest: string): int {
    if rest != [] && (rest[0] == 'e' || rest[0] == 'E') then
      var digits := Products.Unsigned(rest[1..]);
      var n := DigitRun(digits, 10);
      if n == 0 then 0
      else if rest[1] == '-' then -(DigitsValue(digits[..n], 10) as int)
      else DigitsValue(digits[..n], 10)
    else 0
  }

  /**
   * How MySQL reads text compared with an integer column, as a DOUBLE: white space, a sign,
   * digits, a `.` and fraction digits, and an exponent. Reading stops at the first character that
   * does not fit, and text without digits reads as 0.
   */
  function ReadSqlNumber(s: string): SqlNumber {
    var t := SkipSqlSpace(s);
    var u := Products.Unsigned(t);
    var a := DigitRun(u, 10);
    var point := a < |u| && u[a] == '.';
    var b := if point then DigitRun(u[a + 1..], 10) else 0;
    var fraction := if point then u[a + 1..a + 1 + b] else [];
    var rest := if point then u[a + 1 + b..] else u[a..];
    if a + b == 0 then SqlNumber(false, 0, 0)
    else SqlNumber(t[0] == '-', DigitsValue(u[..a] + fraction, 10), Exponent(rest) - b)
  }

  function Pow10(n: nat): (p: nat)
    ensures p >= 1
  {
    if n == 0 then 1 else 10 * Pow10(n - 1)
  }

  /** The integer a number equals, or none when it is not a whole number. */
  function WholeValue(x: SqlNumber): (r: Option<int>)
    ensures x.scale >= 0 ==> r.Some?
    ensures x.mantissa == 0 ==> r == Some(0)
  {
    var magnitude :=
      if x.scale >= 0 then Some(x.mantissa * Pow10(x.scale))
      else if x.mantissa % Pow10(-x.scale) == 0 then Some(x.mantissa / Pow10(-x.scale))
      else None;
    match magnitude
    case None => None
    case Some(m) => Some(if x.negative then -m else m)
  }

  /** The id `WHERE id = ?` matches when given the text `id`, or none when it matches no integer. */
  function SqlIdValue(id: string): Option<int> {
    WholeValue(ReadSqlNumber(id))
  }

  /** MySQL reads back the decimal text of every integer as that integer. */
  lemma SqlReadsDecimal(n: int)
    ensures SqlIdValue(DecimalString(n)) == Some(n)
  {
    var m: nat := if n < 0 then -n else n;
    ReadSignedDigits(DecimalString(n), n < 0, NatString(m));
    NatStringValue(m);
  }

  /** A signed run of digits with nothing after it reads as a whole number with no scale. */
  lemma ReadSignedDigits(t: string, negative: bool, digits: string)
    requires digits != [] && AllDigits(digits)
    requires t == if negative then "-" + digits else digits
    ensures ReadSqlNumber(t) == SqlNumber(negative, DigitsValue(digits, 10), 0)
  {
    assert SkipSqlSpace(t) == t;
    assert Products.Unsigned(t) == digits;
    DigitRunAll(digits, 10);
    assert digits[..|digits|] + [] == digits;
  }

  /** On the decimal text of an integer, `parseInt` and MySQL read the same id. */
  lemma PlainIdsAgree(n: int)
    ensures ParseInt(DecimalString(n)) == SqlIdValue(DecimalString(n)) == Some(n)
  {
    ParseDecimalString(n);
    SqlReadsDecimal(n);
  }

  // ---------------------------------------------------------------- deleteUser, deleteProduct

  /** The row is not one `WHERE id = ?` matches for the text `id`. */
  predicate NotNamedBy(u: User, id: string) { SqlIdValue(id) != Some(u.id) }

  /**
   * deleteUser: refused when `parseInt(id)` is the administrator's own id; otherwise
   * `DELETE FROM users WHERE id = ?` runs with the text itself, which MySQL reads as a number.
   */
  method DeleteUser(db: Database, id: string, adminId: int) returns (r: Answer<()>)
    modifies db`users
    ensures ParseInt(id) == Some(adminId) <==> r == Fail(400, SelfDelete)
    ensures ParseInt(id) != Some(adminId) ==> r == Done(())
    ensures r.Fail? ==> unchanged(db)
    ensures r.Done? ==> db.users == Filter(old(db.users), u => NotNamedBy(u, id))
  {
    if ParseInt(id) == Some(adminId) {
      return Fail(400, SelfDelete);
    }
    db.users := Filter(db.users, u => NotNamedBy(u, id));
    r := Done(());
  }

  /**
   * The guard and the DELETE read the id text differently: `120e-1` is 120 to `parseInt` but 12
   * to MySQL, so administrator 12 passes the guard and deletes their own row.
   */
  lemma SelfDeleteBypass(users: seq<User>, i: int)
    requires 0 <= i < |users| && users[i].id == 12
    ensures ParseInt("120e-1") == Some(120)
    ensures users[i] !in Filter(users, u => NotNamedBy(u, "120e-1"))
  {
    var s := "120e-1";
    ParsesHundredTwenty(s);
    ReadsTwelve(s);
    Rows.FilterMultiset(users, u => NotNamedBy(u, s));
    assert multiset(users)[users[i]] > 0;
  }

  /** `120e-1` starts with the three digits of 120. */
  lemma LeadingDigits(s: string)
    requires s == "120e-1"
    ensures DigitRun(s, 10) == 3 && s[..3] == "120" && DigitsValue("120", 10) == 120
  {
    assert DigitRun(s[3..], 10) == 0;
    assert DigitRun(s[2..], 10) == 1 + DigitRun(s[3..], 10);
    assert DigitRun(s[1..], 10) == 1 + DigitRun(s[2..], 10);
    assert "120"[..2] == "12" && "12"[..1] == "1";
  }

  lemma ParsesHundredTwenty(s: string)
    requires s == "120e-1"
    ensures ParseInt(s) == Some(120)
  {
    LeadingDigits(s);
    assert s[0] == '1' && !IsSpace(s[0]) && s[1] == '2';
    assert TrimStart(s) == s;
  }

  lemma ExponentMinusOne(rest: string)
    requires rest == "e-1"
    ensures Exponent(rest) == -1
  {
    assert rest[1..] == "-1" && Products.Unsigned(rest[1..]) == "1";
    assert DigitRun("1", 10) == 1;
    assert "1"[..1] == "1" && DigitsValue("1", 10) == 1;
  }

  lemma ReadsTwelve(s: string)
    requires s == "120e-1"
    ensures SqlIdValue(s) == Some(12)
  {
    assert SkipSqlSpace(s) == s;
    assert Products.Unsigned(s) == s;
    LeadingDigits(s);
    ExponentMinusOne(s[3..]);
    assert s[..3] + [] == "120";
    assert ReadSqlNumber(s) == SqlNumber(false, 120, -1);
  }

  /** The corrected deleteUser: the guard reads the id as the DELETE does. */
  method DeleteUserChecked(db: Database, id: string, adminId: int) returns (r: Answer<()>)
    modifies db`users
    ensures SqlIdValue(id) == Some(adminId) <==> r == Fail(400, SelfDelete)
    ensures SqlIdValue(id) != Some(adminId) ==> r == Done(())
    ensures r.Fail? ==> unchanged(db)
    ensures r.Done? ==> db.users == Filter(old(db.users), u => NotNamedBy(u, id))
    ensures forall u :: u in old(db.users) && u.id == adminId ==> u in db.users
  {
    if SqlIdValue(id) == Some(adminId) {
      return Fail(400, SelfDelete);
    }
    db.users := Filter(db.users, u => NotNamedBy(u, id));
    r := Done(());
  }

  /** Under the corrected guard the administrator's own row survives every deletion it lets through. */
  lemma AdminSurvivesDeleteUser(users: seq<User>, id: string, adminId: int, i: int)
    requires 0 <= i < |users| && users[i].id == adminId
    requires SqlIdValue(id) != Some(adminId)
    ensures users[i] in Filter(users, u => NotNamedBy(u, id))
  {
  }

  /** Under the guard as written, the administrator's row survives every plain decimal id. */
  lemma AdminSurvivesPlainId(users: seq<User>, n: int, adminId: int, i: int)
    requires 0 <= i < |users| && users[i].id == adminId
    requires ParseInt(DecimalString(n)) != Some(adminId)
    ensures users[i] in Filter(users, u => NotNamedBy(u, DecimalString(n)))
  {
    PlainIdsAgree(n);
  }

  /** deleteProduct: the rows with that id are deleted, with no existence or ownership check. */
  method DeleteProduct(db: Database, id: int) returns (r: Answer<()>)
    modifies db`products
    ensures r == Done(())
    ensures db.products == Products.DeleteRows(old(db.products), id)
  {
    db.products := Products.DeleteRows(db.products, id);
    r := Done(());
  }
}
