/**
 * The school-account rules of src/controllers/authController.js: which e-mail addresses may
 * register, and how grade, class and seat number are read off the student number inside one.
 */
module Students {
  import opened Wrappers
  import opened Text

  /** The school domain, lower-case, with its `@`. */
  const Domain := "@gsm.hs.kr"

  /**
   * validateEmail, the pattern `/^s\d{5}@gsm\.hs\.kr$/i`: an `s` or `S`, exactly five ASCII
   * digits, then the school domain in any ASCII letter case, and nothing else.
   */
  function ValidateEmail(email: string): (ok: bool)
    ensures ok <==> |email| == 16 && AllDigits(email[1..6]) && Lower(email) == "s" + email[1..6] + Domain
  {
    var ok := |email| == 16 && LowerChar(email[0]) == 's' && AllDigits(email[1..6]) && Lower(email[6..]) == Domain;
    assert |email| == 16 ==> Lower(email) == [LowerChar(email[0])] + Lower(email[1..6]) + Lower(email[6..]);
    assert |email| == 16 && AllDigits(email[1..6]) ==> Lower(email[1..6]) == email[1..6];
    ok
  }

  /** Every student address, in any letter case, passes. */
  lemma StudentEmailValid(digits: string)
    requires |digits| == 5 && AllDigits(digits)
    ensures ValidateEmail("s" + digits + Domain)
    ensures ValidateEmail("S" + digits + "@GSM.HS.KR")
  {
    var a := "s" + digits + Domain;
    var b := "S" + digits + "@GSM.HS.KR";
    assert a[1..6] == digits && a[6..] == Domain;
    assert b[1..6] == digits && b[6..] == "@GSM.HS.KR";
    assert Lower(Domain) == Domain;
    assert Lower("@GSM.HS.KR") == Domain by {
      forall i | 0 <= i < 10 ensures Lower("@GSM.HS.KR")[i] == Domain[i] { }
    }
  }

  /** The administrator's address is not a student address, so it can never pass registration. */
  lemma AdminEmailInvalid()
    ensures !ValidateEmail("admin@gsm.hs.kr")
  {
    assert |"admin@gsm.hs.kr"| == 15;
  }

  // ---------------------------------------------------------------- calculateStudentInfo

  /** The position where `/s(\d+)/i` first matches: an `s` or `S` directly followed by a digit. */
  predicate MatchesAt(s: string, i: int) {
    0 <= i && i + 1 < |s| && LowerChar(s[i]) == 's' && IsDigit(s[i + 1])
  }

  function FirstMatchFrom(s: string, from: nat): (r: Option<nat>)
    ensures r.Some? ==> from <= r.value && MatchesAt(s, r.value)
    ensures forall j :: from <= j && (r.None? || j < r.value) ==> !MatchesAt(s, j)
    decreases |s| - from
  {
    if from + 1 >= |s| then None
    else if MatchesAt(s, from) then Some(from)
    else FirstMatchFrom(s, from + 1)
  }

  /** The leftmost match of `/s(\d+)/i`, if any. */
  function FirstMatch(s: string): (r: Option<nat>)
    ensures r.Some? ==> MatchesAt(s, r.value) && forall j :: 0 <= j < r.value ==> !MatchesAt(s, j)
    ensures r.None? ==> forall j :: 0 <= j < |s| ==> !MatchesAt(s, j)
  {
    FirstMatchFrom(s, 0)
  }

  /** A run of radix-10 digits is a run of ASCII digits. */
  lemma DecimalRun(t: string)
    ensures var n := DigitRun(t, 10);
      (forall k :: 0 <= k < n ==> IsDigit(t[k]))
      && (n < |t| ==> !IsDigit(t[n]))
      && (t != [] && IsDigit(t[0]) ==> n >= 1)
  {
  }

  /** The greedy `(\d+)` group: the whole run of digits after the matched `s`. */
  function StudentDigits(s: string, i: nat): (d: string)
    requires MatchesAt(s, i)
    ensures 1 <= |d| && AllDigits(d) && i + 1 + |d| <= |s| && d == s[i + 1..i + 1 + |d|]
    ensures i + 1 + |d| < |s| ==> !IsDigit(s[i + 1 + |d|])
  {
    var t := s[i + 1..];
    DecimalRun(t);
    t[..DigitRun(t, 10)]
  }

  /** The grade a two-digit entry year stands for: 23, 24 and 25 are the third, second and first years. */
  function GradeOf(year: nat): (g: Option<int>)
    ensures g.Some? <==> 23 <= year <= 25
    ensures g.Some? ==> g.value == 26 - year
  {
    if year == 23 then Some(3)
    else if year == 24 then Some(2)
    else if year == 25 then Some(1)
    else None
  }

  /** Class and seat within it: eighteen students to a class, four classes. */
  function Placement(number: nat): (p: Option<(int, int)>)
    ensures p.Some? <==> 1 <= number <= 72
    ensures p.Some? ==> p.value == ((number - 1) / 18 + 1, (number - 1) % 18 + 1)
  {
    if 1 <= number <= 18 then Some((1, number))
    else if 19 <= number <= 36 then Some((2, number - 18))
    else if 37 <= number <= 54 then Some((3, number - 36))
    else if 55 <= number <= 72 then Some((4, number - 54))
    else None
  }

  datatype StudentInfo = StudentInfo(studentNumber: string, grade: int, classNumber: int, studentOrder: int)

  /**
   * calculateStudentInfo: the digits after the first `s`/`S` are the student number; the first
   * two give the grade, the rest (as a number; none at all is NaN) give class and seat.
   */
  function CalculateStudentInfo(email: string): (r: Option<StudentInfo>)
    ensures r.None? <==>
              FirstMatch(email).None?
              || (var d := StudentDigits(email, FirstMatch(email).value);
                  !(23 <= DigitsValue(d[..if |d| < 2 then |d| else 2], 10) <= 25)
                  || |d| <= 2 || !(1 <= DigitsValue(d[2..], 10) <= 72))
    ensures r.Some? ==>
              var d := StudentDigits(email, FirstMatch(email).value);
              && r.value.studentNumber == "s" + d
              && r.value.grade == 26 - DigitsValue(d[..2], 10)
              && (r.value.classNumber - 1) * 18 + r.value.studentOrder == DigitsValue(d[2..], 10)
              && 1 <= r.value.grade <= 3 && 1 <= r.value.classNumber <= 4 && 1 <= r.value.studentOrder <= 18
  {
    match FirstMatch(email)
    case None => None
    case Some(i) =>
      var digits := StudentDigits(email, i);
      var year := DigitsValue(digits[..if |digits| < 2 then |digits| else 2], 10);
      var number := if |digits| <= 2 then None else Some(DigitsValue(digits[2..], 10));
      match GradeOf(year)
      case None => None
      case Some(grade) =>
        if number.None? then None
        else
          match Placement(number.value)
          case None => None
          case Some(p) => Some(StudentInfo("s" + digits, grade, p.0, p.1))
  }

  /** For an address that passes validateEmail, the student number is its five digits. */
  lemma {:induction false} ValidEmailStudentNumber(email: string)
    requires ValidateEmail(email)
    ensures FirstMatch(email) == Some(0)
    ensures StudentDigits(email, 0) == email[1..6]
  {
    assert Lower(email)[0] == 's' && Lower(email)[6] == '@';
    assert LowerChar(email[6]) == '@';
    assert email[1..6][0] == email[1];
    var d := StudentDigits(email, 0);
    assert forall k :: 1 <= k < 6 ==> IsDigit(email[k]) by {
      forall k | 1 <= k < 6 ensures IsDigit(email[k]) { assert email[k] == email[1..6][k - 1]; }
    }
    assert !IsDigit(email[6]);
    assert |d| == 5;
  }

  /**
   * For a valid address the outcome is arithmetic on its five digits: the first two pick the
   * grade, the last three (leading zeros allowed) the class of eighteen and the seat in it.
   */
  lemma {:induction false} ValidEmailInfo(email: string)
    requires ValidateEmail(email)
    ensures var year := DigitsValue(email[1..3], 10);
            var number := DigitsValue(email[3..6], 10);
            CalculateStudentInfo(email)
              == if 23 <= year <= 25 && 1 <= number <= 72
                 then Some(StudentInfo("s" + email[1..6], 26 - year, (number - 1) / 18 + 1, (number - 1) % 18 + 1))
                 else None
  {
    ValidEmailStudentNumber(email);
    var d := email[1..6];
    assert d[..2] == email[1..3] && d[2..] == email[3..6];
  }

  /** The example of the source comment: s25047 (in any address that passes) is first year, class 3, seat 11. */
  lemma ExampleStudent(email: string)
    requires ValidateEmail(email) && email[1..6] == "25047"
    ensures CalculateStudentInfo(email) == Some(StudentInfo("s25047", 1, 3, 11))
  {
    ValidEmailInfo(email);
    ExampleDigits();
    var year := DigitsValue(email[1..3], 10);
    var number := DigitsValue(email[3..6], 10);
    assert year == 25 by {
      assert email[1..3] == email[1..6][..2];
    }
    assert number == 47 by {
      assert email[3..6] == email[1..6][2..];
    }
    assert (number - 1) / 18 + 1 == 3 && (number - 1) % 18 + 1 == 11;
  }

  lemma ExampleDigits()
    ensures "25047"[..2] == "25" && "25047"[2..] == "047" && "s" + "25047" == "s25047"
    ensures DigitsValue("25", 10) == 25 && DigitsValue("047", 10) == 47
  {
    assert "25"[..1] == "2" && "2"[..0] == [];
    assert "047"[..2] == "04" && "04"[..1] == "0" && "0"[..0] == [];
  }
}
