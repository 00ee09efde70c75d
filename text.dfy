/**
 * The JavaScript string primitives the server relies on: white space as `\s` and
 * `String.prototype.trim` see it, ASCII lower-casing, `includes`/`indexOf`, `replace` with a
 * string pattern, `split` on one character, `parseInt`, and number-to-text conversion.
 * Strings are sequences of code points.
 */
module Text {
  import opened Wrappers

  /** JavaScript's WhiteSpace and LineTerminator characters: the class `\s` and what `trim` removes. */
  predicate IsSpace(c: char) {
    var n := c as int;
    n == 0x09 || n == 0x0A || n == 0x0B || n == 0x0C || n == 0x0D || n == 0x20 || n == 0xA0
    || n == 0x1680 || (0x2000 <= n <= 0x200A) || n == 0x2028 || n == 0x2029 || n == 0x202F
    || n == 0x205F || n == 0x3000 || n == 0xFEFF
  }

  predicate IsDigit(c: char) { '0' <= c <= '9' }

  predicate AllDigits(s: string) { forall i :: 0 <= i < |s| ==> IsDigit(s[i]) }

  // ---------------------------------------------------------------- trimming

  /** `trimStart`: drops the leading white space and nothing else. */
  function TrimStart(s: string): (r: string)
    ensures |r| <= |s| && r == s[|s| - |r|..]
    ensures r == [] || !IsSpace(r[0])
    ensures forall i :: 0 <= i < |s| - |r| ==> IsSpace(s[i])
  {
    if s != [] && IsSpace(s[0]) then TrimStart(s[1..]) else s
  }

  /** `trimEnd`: drops the trailing white space and nothing else. */
  function TrimEnd(s: string): (r: string)
    ensures |r| <= |s| && r == s[..|r|]
    ensures r == [] || !IsSpace(r[|r| - 1])
    ensures forall i :: |r| <= i < |s| ==> IsSpace(s[i])
  {
    if s != [] && IsSpace(s[|s| - 1]) then TrimEnd(s[..|s| - 1]) else s
  }

  /** `trim`: the slice of `s` left after removing white space at both ends. */
  function Trim(s: string): (r: string)
    ensures |s| - |TrimStart(s)| + |r| <= |s|
    ensures forall i :: 0 <= i < |r| ==> r[i] == s[|s| - |TrimStart(s)| + i]
    ensures forall i :: 0 <= i < |s| - |TrimStart(s)| ==> IsSpace(s[i])
    ensures forall i :: |s| - |TrimStart(s)| + |r| <= i < |s| ==> IsSpace(s[i])
    ensures r == [] || (!IsSpace(r[0]) && !IsSpace(r[|r| - 1]))
  {
    var t := TrimStart(s);
    var r := TrimEnd(t);
    TrimParts(s, t, r);
    r
  }

  /** A prefix `r` of a suffix `t` of `s` is a slice of `s`, and what the prefix leaves of `t` is the tail of `s`. */
  lemma TrimParts(s: string, t: string, r: string)
    requires |t| <= |s| && t == s[|s| - |t|..]
    requires |r| <= |t| && r == t[..|r|]
    requires forall i :: |r| <= i < |t| ==> IsSpace(t[i])
    requires t == [] || !IsSpace(t[0])
    requires r == [] || !IsSpace(r[|r| - 1])
    ensures |s| - |t| + |r| <= |s|
    ensures forall i :: 0 <= i < |r| ==> r[i] == s[|s| - |t| + i]
    ensures forall i :: |s| - |t| + |r| <= i < |s| ==> IsSpace(s[i])
    ensures r == [] || (!IsSpace(r[0]) && !IsSpace(r[|r| - 1]))
  {
    assert r != [] ==> r[0] == t[0];
    var a := |s| - |t|;
    forall i | a + |r| <= i < |s| ensures IsSpace(s[i]) {
      assert s[i] == t[i - a];
    }
  }

  /** A string is blank when `trim` leaves nothing, i.e. it consists of white space only. */
  lemma {:induction false} TrimEmptyIffBlank(s: string)
    ensures Trim(s) == [] <==> forall i :: 0 <= i < |s| ==> IsSpace(s[i])
  {
    if Trim(s) != [] {
      var r := Trim(s);
      var a := |s| - |TrimStart(s)|;
      assert s[a] == r[0] && !IsSpace(s[a]);
    }
  }

  /** A string without white space at its ends is left unchanged by `trim`. */
  lemma TrimOfTrimmed(s: string)
    requires s == [] || (!IsSpace(s[0]) && !IsSpace(s[|s| - 1]))
    ensures Trim(s) == s
  {
  }

  /** `trimStart` removes exactly the white space in front of text that does not start with white space. */
  lemma {:induction false} TrimStartPadded(before: string, x: string)
    requires forall i :: 0 <= i < |before| ==> IsSpace(before[i])
    requires x != [] && !IsSpace(x[0])
    ensures TrimStart(before + x) == x
    decreases |before|
  {
    if before == [] {
      assert before + x == x;
    } else {
      var s := before + x;
      assert s[0] == before[0] && s[1..] == before[1..] + x;
      TrimStartPadded(before[1..], x);
    }
  }

  /** `trimEnd` removes exactly the white space behind text that does not end with white space. */
  lemma {:induction false} TrimEndPadded(x: string, after: string)
    requires forall i :: 0 <= i < |after| ==> IsSpace(after[i])
    requires x != [] && !IsSpace(x[|x| - 1])
    ensures TrimEnd(x + after) == x
    decreases |after|
  {
    if after == [] {
      assert x + after == x;
    } else {
      var s := x + after;
      var shorter := after[..|after| - 1];
      assert s[|s| - 1] == after[|after| - 1] && s[..|s| - 1] == x + shorter;
      TrimEndPadded(x, shorter);
    }
  }

  /** `trim` removes exactly the white space around text that neither starts nor ends with white space. */
  lemma {:induction false} TrimPadded(before: string, x: string, after: string)
    requires forall i :: 0 <= i < |before| ==> IsSpace(before[i])
    requires forall i :: 0 <= i < |after| ==> IsSpace(after[i])
    requires x != [] && !IsSpace(x[0]) && !IsSpace(x[|x| - 1])
    ensures Trim(before + x + after) == x
  {
    assert before + x + after == before + (x + after);
    TrimStartPadded(before, x + after);
    TrimEndPadded(x, after);
  }

  // ---------------------------------------------------------------- case and filtering

  /** `toLowerCase` restricted to ASCII letters. */
  function LowerChar(c: char): (r: char)
    ensures ('A' <= c <= 'Z') == (r != c)
    ensures !('A' <= r <= 'Z')
  {
    if 'A' <= c <= 'Z' then (c as int + 32) as char else c
  }

  function Lower(s: string): (r: string)
    ensures |r| == |s| && forall i :: 0 <= i < |s| ==> r[i] == LowerChar(s[i])
  {
    seq(|s|, i requires 0 <= i < |s| => LowerChar(s[i]))
  }

  predicate IsLower(s: string) { forall i :: 0 <= i < |s| ==> !('A' <= s[i] <= 'Z') }

  /** The characters of `s` that `drop` does not select, in their original order (a global `replace` by ''). */
  function Without(s: string, drop: char -> bool): (r: string)
    ensures |r| <= |s|
    ensures forall i :: 0 <= i < |r| ==> !drop(r[i]) && r[i] in s
    ensures forall i :: 0 <= i < |s| && !drop(s[i]) ==> s[i] in r
    ensures (forall i :: 0 <= i < |s| ==> !drop(s[i])) ==> r == s
    ensures |s| == 1 ==> r == (if drop(s[0]) then [] else s)
  {
    if s == [] then []
    else if drop(s[0]) then Without(s[1..], drop)
    else [s[0]] + Without(s[1..], drop)
  }

  /** Removing characters from two texts one after the other is removing them from the joined text. */
  lemma {:induction false} WithoutAppend(a: string, b: string, drop: char -> bool)
    ensures Without(a + b, drop) == Without(a, drop) + Without(b, drop)
  {
    if a == [] {
      assert a + b == b;
    } else {
      var c, rest := a[0], a[1..];
      assert a == [c] + rest && a + b == [c] + (rest + b);
      WithoutAppend(rest, b, drop);
      WithoutCons(c, rest, drop);
      WithoutCons(c, rest + b, drop);
      JoinBehind(if drop(c) then [] else [c], Without(rest, drop), Without(b, drop));
    }
  }

  lemma WithoutCons(c: char, rest: string, drop: char -> bool)
    ensures Without([c] + rest, drop) == (if drop(c) then [] else [c]) + Without(rest, drop)
  {
    var s := [c] + rest;
    assert s[0] == c && s[1..] == rest;
  }

  lemma JoinBehind(x: string, y: string, z: string)
    ensures x + (y + z) == (x + y) + z
  {
  }

  // ---------------------------------------------------------------- searching

  predicate OccursAt(s: string, pat: string, i: int) {
    0 <= i && i + |pat| <= |s| && s[i..i + |pat|] == pat
  }

  function IndexOfFrom(s: string, pat: string, from: nat): (r: Option<nat>)
    ensures r.Some? ==> from <= r.value && OccursAt(s, pat, r.value)
                        && forall j :: from <= j < r.value ==> !OccursAt(s, pat, j)
    ensures r.None? ==> forall j :: from <= j ==> !OccursAt(s, pat, j)
    decreases |s| - from
  {
    if from + |pat| > |s| then None
    else if s[from..from + |pat|] == pat then Some(from)
    else IndexOfFrom(s, pat, from + 1)
  }

  /** `indexOf`: the first position where `pat` occurs, if any. */
  function IndexOf(s: string, pat: string): (r: Option<nat>)
    ensures r.Some? ==> OccursAt(s, pat, r.value) && forall j :: 0 <= j < r.value ==> !OccursAt(s, pat, j)
    ensures r.None? ==> forall j :: !OccursAt(s, pat, j)
  {
    IndexOfFrom(s, pat, 0)
  }

  /** `includes`. */
  predicate Includes(s: string, pat: string) { IndexOf(s, pat).Some? }

  lemma IncludesIff(s: string, pat: string)
    ensures Includes(s, pat) <==> exists j :: OccursAt(s, pat, j)
  {
  }

  /** Every string occurs inside any string that contains it at some offset. */
  lemma {:induction false} IncludesWithin(s: string, a: nat, pat: string)
    requires a + |pat| <= |s| && s[a..a + |pat|] == pat
    ensures Includes(s, pat)
  {
    assert OccursAt(s, pat, a);
  }

  predicate StartsWith(s: string, prefix: string) {
    |prefix| <= |s| && s[..|prefix|] == prefix
  }

  /** `replace(pat, rep)` with a string pattern: only the first occurrence is replaced. */
  function ReplaceFirst(s: string, pat: string, rep: string): (r: string)
    ensures IndexOf(s, pat).None? ==> r == s
    ensures IndexOf(s, pat).Some? ==>
              var i := IndexOf(s, pat).value; r == s[..i] + rep + s[i + |pat|..]
  {
    match IndexOf(s, pat)
    case None => s
    case Some(i) => s[..i] + rep + s[i + |pat|..]
  }

  lemma {:induction false} ReplaceFirstOfPrefixed(pat: string, t: string)
    ensures ReplaceFirst(pat + t, pat, []) == t
  {
    assert OccursAt(pat + t, pat, 0);
    assert IndexOf(pat + t, pat) == Some(0);
  }

  // ---------------------------------------------------------------- split / join

  /** `split(sep)` with a one-character separator: the text between separators, in order. */
  function Split(s: string, sep: char): (r: seq<string>)
    ensures |r| >= 1
    ensures forall k :: 0 <= k < |r| ==> sep !in r[k]
  {
    if s == [] then [[]]
    else
      var rest := Split(s[1..], sep);
      if s[0] == sep then [[]] + rest else [[s[0]] + rest[0]] + rest[1..]
  }

  function Join(pieces: seq<string>, sep: char): string
  {
    if |pieces| == 0 then []
    else if |pieces| == 1 then pieces[0]
    else pieces[0] + [sep] + Join(pieces[1..], sep)
  }

  /** Splitting loses nothing: joining the pieces with the separator gives the text back. */
  lemma {:induction false} SplitJoin(s: string, sep: char)
    ensures Join(Split(s, sep), sep) == s
  {
    if s != [] {
      var rest := Split(s[1..], sep);
      SplitJoin(s[1..], sep);
      if s[0] == sep {
        assert Split(s, sep) == [[]] + rest;
        assert Join([[]] + rest, sep) == [] + [sep] + Join(rest, sep);
      } else {
        var r := Split(s, sep);
        assert r == [[s[0]] + rest[0]] + rest[1..];
        if |rest| == 1 {
          assert r == [[s[0]] + rest[0]];
        } else {
          assert r[1..] == rest[1..];
          assert Join(rest, sep) == rest[0] + [sep] + Join(rest[1..], sep);
        }
      }
    }
  }

  // ---------------------------------------------------------------- numbers

  function DigitValue(c: char): (d: nat)
    ensures d <= 35
  {
    if '0' <= c <= '9' then c as int - '0' as int
    else if 'a' <= c <= 'z' then c as int - 'a' as int + 10
    else if 'A' <= c <= 'Z' then c as int - 'A' as int + 10
    else 99 - 64
  }

  predicate IsRadixDigit(c: char, radix: nat) {
    (IsDigit(c) || ('a' <= c <= 'z') || ('A' <= c <= 'Z')) && DigitValue(c) < radix
  }

  /** Length of the longest prefix of `s` made of digits in `radix`. */
  function DigitRun(s: string, radix: nat): (n: nat)
    ensures n <= |s|
    ensures forall i :: 0 <= i < n ==> IsRadixDigit(s[i], radix)
    ensures n < |s| ==> !IsRadixDigit(s[n], radix)
  {
    if s != [] && IsRadixDigit(s[0], radix) then 1 + DigitRun(s[1..], radix) else 0
  }

  /** The value of a digit string read most significant digit first. */
  function DigitsValue(s: string, radix: nat): nat
  {
    if s == [] then 0 else DigitsValue(s[..|s| - 1], radix) * radix + DigitValue(s[|s| - 1])
  }

  /** `parseInt(s, radix)` after the sign: `None` is NaN. */
  function ParseMagnitude(s: string, radix: nat): Option<nat>
  {
    var n := DigitRun(s, radix);
    if n == 0 then None else Some(DigitsValue(s[..n], radix))
  }

  function Signed(negative: bool, m: Option<nat>): Option<int> {
    match m
    case None => None
    case Some(v) => Some(if negative then -(v as int) else v as int)
  }

  /**
   * `parseInt(s, 10)`: skips leading white space, reads an optional sign and then the longest
   * run of decimal digits; NaN (`None`) when there is none. Trailing text is ignored.
   */
  function ParseInt10(s: string): Option<int>
  {
    var t := TrimStart(s);
    if t != [] && (t[0] == '-' || t[0] == '+') then Signed(t[0] == '-', ParseMagnitude(t[1..], 10))
    else ParseMagnitude(t, 10)
  }

  /**
   * `parseInt(s)` without a radix: as `ParseInt10`, except that a `0x`/`0X` after the sign
   * switches to hexadecimal.
   */
  function ParseInt(s: string): Option<int>
  {
    var t := TrimStart(s);
    var negative := t != [] && t[0] == '-';
    var u := if t != [] && (t[0] == '-' || t[0] == '+') then t[1..] else t;
    if |u| >= 2 && u[0] == '0' && (u[1] == 'x' || u[1] == 'X') then Signed(negative, ParseMagnitude(u[2..], 16))
    else Signed(negative, ParseMagnitude(u, 10))
  }

  function DigitChar(d: nat): (c: char)
    requires d < 10
    ensures IsDigit(c) && DigitValue(c) == d
  {
    ('0' as int + d) as char
  }

  /** The decimal text of a natural number, as `String(n)` writes it. */
  function NatString(n: nat): (s: string)
    ensures |s| >= 1 && AllDigits(s)
    ensures |s| > 1 ==> s[0] != '0'
  {
    if n < 10 then [DigitChar(n)] else NatString(n / 10) + [DigitChar(n % 10)]
  }

  /** The decimal text of an integer, as a template literal writes it. */
  function DecimalString(n: int): string
  {
    if n < 0 then "-" + NatString(-n) else NatString(n)
  }

  lemma {:induction false} NatStringValue(n: nat)
    ensures DigitsValue(NatString(n), 10) == n
  {
    if n >= 10 {
      NatStringValue(n / 10);
      var s := NatString(n);
      assert s[..|s| - 1] == NatString(n / 10);
    }
  }

  lemma DigitRunAll(s: string, radix: nat)
    requires forall i :: 0 <= i < |s| ==> IsRadixDigit(s[i], radix)
    ensures DigitRun(s, radix) == |s|
  {
  }

  lemma {:induction false} ParseMagnitudeOfNatString(m: nat)
    ensures ParseMagnitude(NatString(m), 10) == Some(m)
  {
    var digits := NatString(m);
    NatStringValue(m);
    DigitRunAll(digits, 10);
    assert digits[..|digits|] == digits;
  }

  lemma TrimStartKeeps(s: string)
    requires s != [] && !IsSpace(s[0])
    ensures TrimStart(s) == s
  {
  }

  /** A run of digits without a leading zero is read as its own value, with or without radix 10. */
  lemma ParseUnsigned(u: string, v: nat)
    requires u != [] && IsDigit(u[0]) && !(|u| >= 2 && u[0] == '0')
    requires ParseMagnitude(u, 10) == Some(v)
    ensures ParseInt10(u) == Some(v)
    ensures ParseInt(u) == Some(v)
  {
    TrimStartKeeps(u);
  }

  /** The same run after a minus sign is read as its negation. */
  lemma ParseMinus(u: string, v: nat)
    requires u != [] && IsDigit(u[0]) && !(|u| >= 2 && u[0] == '0')
    requires ParseMagnitude(u, 10) == Some(v)
    ensures ParseInt10("-" + u) == Some(-(v as int))
    ensures ParseInt("-" + u) == Some(-(v as int))
  {
    var s := "-" + u;
    TrimStartKeeps(s);
    assert s[0] == '-' && s[1..] == u;
  }

  lemma {:induction false} ParseNatString(m: nat)
    ensures ParseInt10(NatString(m)) == Some(m)
    ensures ParseInt(NatString(m)) == Some(m)
  {
    ParseMagnitudeOfNatString(m);
    ParseUnsigned(NatString(m), m);
  }

  lemma {:induction false} ParseNegativeString(n: int)
    requires n < 0
    ensures ParseInt10(DecimalString(n)) == Some(n)
    ensures ParseInt(DecimalString(n)) == Some(n)
  {
    ParseMagnitudeOfNatString(-n);
    ParseMinus(NatString(-n), -n);
  }

  /** `parseInt` reads back exactly the number that `String(n)` wrote, with or without radix 10. */
  lemma {:induction false} ParseDecimalString(n: int)
    ensures ParseInt10(DecimalString(n)) == Some(n)
    ensures ParseInt(DecimalString(n)) == Some(n)
  {
    if n < 0 {
      ParseNegativeString(n);
    } else {
      assert DecimalString(n) == NatString(n);
      ParseNatString(n);
    }
  }
}
