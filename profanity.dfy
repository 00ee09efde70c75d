/**
 * The chat profanity filter (src/utils/profanityFilter.js): a fixed word list, a normaliser
 * that defeats spacing, punctuation and letter-stretching tricks, a substring matcher, and the
 * message validator built on them.
 */
module ProfanityFilter {
  import opened Wrappers
  import opened Text

  /** PROFANITY_WORDS, in the order of the source (duplicates included). */
  const Words: seq<string> := [
    "시발", "씨발", "병신", "병딱", "빙신", "빙딱",
    "개새끼", "개새", "개쓰레기", "개같은", "개돼지",
    "좆", "좃", "존나", "존니", "존나게",
    "미친", "미친놈", "미친년", "미친새끼",
    "닥쳐", "닥치", "닥쳐라",
    "죽어", "죽어라", "죽을", "죽여",
    "엿", "엿먹어", "엿먹어라",
    "지랄", "지랄하네", "지랄한다",
    "개소리", "헛소리",
    "바보", "멍청이", "등신", "호구",
    "새끼", "새키", "새퀴",
    "놈", "년", "새끼",
    "쓰레기", "찌질이",
    "ㅅㅂ", "ㅂㅅ", "ㅅㅣㅂㅏㄹ", "ㅂㅣㅇㅅㅣㄴ",
    "ㄱㅐㅅㅐㄲㅣ", "ㅈㅗㄴㄴㅏ",
    "sibal", "sibbal", "ssibal", "sibarl",
    "byungsin", "byungshin", "byungsin",
    "gae", "gae saekki", "gaesaekki",
    "jot", "jotna", "jonna",
    "michin", "michin nom",
    "dakchyeo", "dakchi",
    "juk", "juk eo", "juk eora",
    "yeot", "yeot meogeo",
    "jiral", "jiralhane",
    "gaesori", "heutsori",
    "saekki", "saeki", "saekwi",
    "nom", "nyeon",
    "sseuregi", "jjijiri",
    "시이발", "시발발", "병신신", "개새끼끼"
  ]

  /** The punctuation class that normalizeText strips: ! @ # $ % ^ & * ( ) _ + - = [ ] { } ; ' : " \ | , . < > / ? ~ `
   *  — these 32 characters are exactly the four ranges of ASCII punctuation below. */
  predicate IsPunct(c: char) {
    '!' <= c <= '/' || ':' <= c <= '@' || '[' <= c <= '`' || '{' <= c <= '~'
  }

  /** The class containsProfanity strips before its second pass: the punctuation above and `\s`. */
  predicate IsSpecial(c: char) { IsPunct(c) || IsSpace(c) }

  /** Characters that the regular-expression `.` does not match. */
  predicate IsLineTerminator(c: char) {
    c == '\n' || c == '\r' || c == '\U{2028}' || c == '\U{2029}'
  }

  /** Length of the run of copies of `s[0]` that `s` starts with. */
  function RunLength(s: string): (n: nat)
    requires s != []
    ensures 1 <= n <= |s|
    ensures forall i :: 0 <= i < n ==> s[i] == s[0]
    ensures n < |s| ==> s[n] != s[0]
  {
    if |s| >= 2 && s[1] == s[0] then 1 + RunLength(s[1..]) else 1
  }

  /**
   * `replace(/(.)\1{2,}/g, '$1$1')`: scanning left to right, a character followed by at least
   * two copies of itself has its whole run replaced by two copies; elsewhere the scan moves on
   * by one character.
   */
  function CollapseRuns(s: string): (r: string)
    ensures |r| <= |s|
    ensures forall i :: 0 <= i < |r| ==> r[i] in s
    decreases |s|
  {
    if s == [] then []
    else
      var k := RunLength(s);
      if k >= 3 && !IsLineTerminator(s[0]) then
        var rest := CollapseRuns(s[k..]);
        assert forall i :: 0 <= i < |rest| ==> rest[i] in s by {
          forall i | 0 <= i < |rest| ensures rest[i] in s {
            assert rest[i] in s[k..];
          }
        }
        [s[0], s[0]] + rest
      else
        var rest := CollapseRuns(s[1..]);
        assert forall i :: 0 <= i < |rest| ==> rest[i] in s by {
          forall i | 0 <= i < |rest| ensures rest[i] in s {
            assert rest[i] in s[1..];
          }
        }
        [s[0]] + rest
  }

  // ---------------------------------------------------------------- runs

  /** `count` copies of `c` in a row. */
  datatype Run = Run(c: char, count: nat)

  function Repeat(c: char, n: nat): (r: string)
    ensures |r| == n && forall i :: 0 <= i < n ==> r[i] == c
  {
    if n == 0 then [] else [c] + Repeat(c, n - 1)
  }

  /** The text cut into its maximal runs, left to right: no run is empty and neighbours differ. */
  function Runs(s: string): (rs: seq<Run>)
    ensures rs == [] <==> s == []
    ensures rs != [] ==> rs[0].c == s[0]
    ensures forall i :: 0 <= i < |rs| ==> rs[i].count >= 1
    ensures forall i :: 0 <= i < |rs| - 1 ==> rs[i].c != rs[i + 1].c
    decreases |s|
  {
    if s == [] then []
    else
      var k := RunLength(s);
      var rest := Runs(s[k..]);
      assert rest != [] ==> rest[0].c == s[k];
      [Run(s[0], k)] + rest
  }

  function Expand(rs: seq<Run>): string {
    if rs == [] then [] else Repeat(rs[0].c, rs[0].count) + Expand(rs[1..])
  }

  lemma ExpandCons(x: Run, rs: seq<Run>)
    ensures Expand([x] + rs) == Repeat(x.c, x.count) + Expand(rs)
  {
    assert ([x] + rs)[1..] == rs;
  }

  /** Cutting into runs loses nothing: the runs spell the text again. */
  lemma {:induction false} RunsExpand(s: string)
    ensures Expand(Runs(s)) == s
    decreases |s|
  {
    if s != [] {
      var k := RunLength(s);
      RunsExpand(s[k..]);
      ExpandCons(Run(s[0], k), Runs(s[k..]));
      assert s == s[..k] + s[k..];
      assert s[..k] == Repeat(s[0], k);
    }
  }

  /** The replacement on one run: three or more copies of a character that `.` matches become two. */
  function Capped(run: Run): Run {
    if run.count >= 3 && !IsLineTerminator(run.c) then Run(run.c, 2) else run
  }

  function CapAll(rs: seq<Run>): (r: seq<Run>)
    ensures |r| == |rs| && forall i :: 0 <= i < |r| ==> r[i] == Capped(rs[i])
  {
    seq(|rs|, i requires 0 <= i < |rs| => Capped(rs[i]))
  }

  lemma CapAllCons(x: Run, rs: seq<Run>)
    ensures CapAll([x] + rs) == [Capped(x)] + CapAll(rs)
  {
    assert forall i :: 1 <= i < |rs| + 1 ==> ([x] + rs)[i] == rs[i - 1];
  }

  /** Copying one more character of a run in front of copies of it gives one copy more. */
  lemma PrependRepeat(c: char, n: nat, x: string, rest: string, tail: string)
    requires n >= 1 && x == [c] + rest && rest == Repeat(c, n - 1) + tail
    ensures x == Repeat(c, n) + tail
  {
    assert Repeat(c, n) == [c] + Repeat(c, n - 1);
  }

  /** The first n characters of a run the expression does not match are copied one at a time. */
  lemma {:induction false} UncappedRun(t: string, n: nat)
    requires t != [] && (RunLength(t) < 3 || IsLineTerminator(t[0]))
    requires 1 <= n <= RunLength(t)
    ensures CollapseRuns(t) == Repeat(t[0], n) + CollapseRuns(t[n..])
  {
    ShortRunHead(t);
    if n == 1 {
      assert Repeat(t[0], 1) == [t[0]];
    } else {
      var u := t[1..];
      assert RunLength(t) == 1 + RunLength(u);
      UncappedRun(u, n - 1);
      assert u[0] == t[0] && u[n - 1..] == t[n..];
      PrependRepeat(t[0], n, CollapseRuns(t), CollapseRuns(u), CollapseRuns(t[n..]));
    }
  }

  /** Where the expression does not match, the scan copies one character and moves on. */
  lemma ShortRunHead(t: string)
    requires t != [] && (RunLength(t) < 3 || IsLineTerminator(t[0]))
    ensures CollapseRuns(t) == [t[0]] + CollapseRuns(t[1..])
  {
  }

  /**
   * CollapseRuns is the replacement applied to every maximal run wherever it occurs: each run of
   * three or more copies of a character other than a line terminator becomes exactly two, and
   * every other run is kept whole.
   */
  lemma {:induction false} CollapseByRuns(s: string)
    ensures CollapseRuns(s) == Expand(CapAll(Runs(s)))
    decreases |s|
  {
    if s != [] {
      var k := RunLength(s);
      var head, rest := Run(s[0], k), Runs(s[k..]);
      var tail := CollapseRuns(s[k..]);
      CollapseByRuns(s[k..]);
      assert Runs(s) == [head] + rest;
      CapAllCons(head, rest);
      ExpandCons(Capped(head), CapAll(rest));
      assert Expand(CapAll(Runs(s))) == Repeat(Capped(head).c, Capped(head).count) + tail;
      if k >= 3 && !IsLineTerminator(s[0]) {
        LongRunHead(s);
        calc {
          CollapseRuns(s);
          [s[0]] + ([s[0]] + tail);
          [s[0], s[0]] + tail;
          { assert Repeat(s[0], 2) == [s[0], s[0]]; }
          Repeat(s[0], 2) + tail;
        }
      } else {
        UncappedRun(s, k);
      }
    }
  }

  /** No character occurs three or more times in a row. */
  predicate NoTriple(s: string) {
    forall i :: 0 <= i && i + 2 < |s| ==> !(s[i] == s[i + 1] && s[i + 1] == s[i + 2])
  }

  /**
   * normalizeText: '' for a missing, non-string or empty input; otherwise lower-case, drop all
   * white space, drop the punctuation class, and cut every run of three or more equal
   * characters down to two.
   */
  function Normalize(text: Option<string>): string
  {
    if text.None? || text.value == [] then []
    else CollapseRuns(Without(Without(Lower(text.value), IsSpace), IsPunct))
  }

  // ---------------------------------------------------------------- properties of Normalize

  /** Prepending one character to text with no triple keeps it free of triples unless it starts a new one. */
  lemma NoTripleCons(c: char, rest: string)
    requires NoTriple(rest)
    requires |rest| >= 2 && rest[0] == c ==> rest[1] != c
    ensures NoTriple([c] + rest)
  {
    var r := [c] + rest;
    forall i | 0 <= i && i + 2 < |r| ensures !(r[i] == r[i + 1] && r[i + 1] == r[i + 2]) {
      if i > 0 {
        assert r[i] == rest[i - 1] && r[i + 1] == rest[i] && r[i + 2] == rest[i + 1];
      }
    }
  }

  lemma RunLengthCons(c: char, rest: string)
    ensures RunLength([c] + rest) == if rest != [] && rest[0] == c then 1 + RunLength(rest) else 1
  {
    assert ([c] + rest)[1..] == rest;
  }

  /** What CollapseRuns does to the head of its input, and that it leaves no triple. */
  predicate CollapsedWell(s: string) {
    var r := CollapseRuns(s);
    (s == [] <==> r == [])
    && (s != [] ==> r[0] == s[0] && RunLength(r) == (if RunLength(s) >= 2 then 2 else 1))
    && NoTriple(r)
  }

  /** Shape of CollapseRuns on text without line terminators: it keeps the first character, caps the leading run at two, and leaves no triple. */
  lemma {:induction false} CollapseShape(s: string)
    requires forall i :: 0 <= i < |s| ==> !IsLineTerminator(s[i])
    ensures CollapsedWell(s)
    decreases |s|
  {
    if s != [] {
      var k := RunLength(s);
      if k >= 3 {
        CollapseShape(s[k..]);
        CollapseLongRun(s);
      } else {
        CollapseShape(s[1..]);
        CollapseShortRun(s);
      }
    }
  }

  lemma CollapseLongRun(s: string)
    requires s != [] && RunLength(s) >= 3 && !IsLineTerminator(s[0])
    requires CollapsedWell(s[RunLength(s)..])
    ensures CollapsedWell(s)
  {
    var t := s[RunLength(s)..];
    var rest := CollapseRuns(t);
    assert rest == [] || rest[0] != s[0] by {
      if t != [] {
        assert t[0] == s[RunLength(s)];
      }
    }
    LongRunHead(s);
    PairThenOther(s[0], rest);
  }

  /** A run of three or more is replaced by two copies of its character. */
  lemma LongRunHead(s: string)
    requires s != [] && RunLength(s) >= 3 && !IsLineTerminator(s[0])
    ensures CollapseRuns(s) == [s[0]] + ([s[0]] + CollapseRuns(s[RunLength(s)..]))
  {
  }

  /** Two copies of a character in front of text that starts with another one. */
  lemma PairThenOther(c: char, rest: string)
    requires rest == [] || rest[0] != c
    requires NoTriple(rest)
    ensures var r := [c] + ([c] + rest); r[0] == c && RunLength(r) == 2 && NoTriple(r)
  {
    NoTripleCons(c, rest);
    NoTripleCons(c, [c] + rest);
    RunLengthCons(c, rest);
    RunLengthCons(c, [c] + rest);
  }

  lemma CollapseShortRun(s: string)
    requires s != [] && (RunLength(s) < 3 || IsLineTerminator(s[0]))
    requires !IsLineTerminator(s[0])
    requires CollapsedWell(s[1..])
    ensures CollapsedWell(s)
  {
    var c := s[0];
    var t := s[1..];
    var rest := CollapseRuns(t);
    assert CollapseRuns(s) == [c] + rest;
    RunLengthCons(c, t);
    assert s == [c] + t;
    RunLengthCons(c, rest);
    NoTripleCons(c, rest);
  }

  /** Text with no triple is left unchanged by CollapseRuns. */
  lemma {:induction false} CollapseFixed(s: string)
    requires NoTriple(s)
    ensures CollapseRuns(s) == s
    decreases |s|
  {
    if s != [] {
      assert |s| >= 3 ==> !(s[0] == s[1] && s[1] == s[2]);
      assert NoTriple(s[1..]) by {
        forall i | 0 <= i && i + 2 < |s[1..]| ensures !(s[1..][i] == s[1..][i + 1] && s[1..][i + 1] == s[1..][i + 2]) {
          assert s[1..][i] == s[i + 1] && s[1..][i + 1] == s[i + 2] && s[1..][i + 2] == s[i + 3];
        }
      }
      CollapseFixed(s[1..]);
    }
  }

  /** Lower-casing leaves text without upper-case ASCII letters unchanged. */
  lemma LowerFixed(s: string)
    requires IsLower(s)
    ensures Lower(s) == s
  {
  }

  /** What normalizeText returns: no upper-case ASCII, no white space, no punctuation of the class, no triple. */
  predicate IsNormal(s: string) {
    && IsLower(s)
    && (forall i :: 0 <= i < |s| ==> !IsSpace(s[i]) && !IsPunct(s[i]))
    && NoTriple(s)
  }

  lemma {:induction false} NormalizeIsNormal(text: Option<string>)
    ensures IsNormal(Normalize(text))
  {
    if text.Some? && text.value != [] {
      var lowered := Lower(text.value);
      var noSpace := Without(lowered, IsSpace);
      var noPunct := Without(noSpace, IsPunct);
      var r := CollapseRuns(noPunct);
      assert forall i :: 0 <= i < |noPunct| ==> !IsLineTerminator(noPunct[i]) by {
        forall i | 0 <= i < |noPunct| ensures !IsLineTerminator(noPunct[i]) {
          assert noPunct[i] in noSpace;
        }
      }
      CollapseShape(noPunct);
      forall i | 0 <= i < |r| ensures !('A' <= r[i] <= 'Z') && !IsSpace(r[i]) && !IsPunct(r[i]) {
        assert r[i] in noPunct;
        assert r[i] in noSpace;
        assert r[i] in lowered;
      }
    }
  }

  /** normalizeText is idempotent: its output is a fixed point of every step. */
  lemma {:induction false} NormalizeIdempotent(text: Option<string>)
    ensures Normalize(Some(Normalize(text))) == Normalize(text)
  {
    var n := Normalize(text);
    NormalizeIsNormal(text);
    if n != [] {
      LowerFixed(n);
      assert Without(n, IsSpace) == n;
      assert Without(n, IsPunct) == n;
      CollapseFixed(n);
    }
  }

  // ---------------------------------------------------------------- matching

  /** The `for (const word of PROFANITY_WORDS)` search: does some normalised word occur in `normalized`? */
  function AnyWordIn(normalized: string, words: seq<string>): (found: bool)
    ensures found <==> exists k :: 0 <= k < |words| && Includes(normalized, Normalize(Some(words[k])))
  {
    if words == [] then false
    else if Includes(normalized, Normalize(Some(words[0]))) then true
    else
      var found := AnyWordIn(normalized, words[1..]);
      assert found ==> exists k :: 0 <= k < |words| && Includes(normalized, Normalize(Some(words[k]))) by {
        if found {
          var k :| 0 <= k < |words[1..]| && Includes(normalized, Normalize(Some(words[1..][k])));
          assert words[1..][k] == words[k + 1];
        }
      }
      assert (exists k :: 0 <= k < |words| && Includes(normalized, Normalize(Some(words[k])))) ==> found by {
        if k :| 0 <= k < |words| && Includes(normalized, Normalize(Some(words[k]))) {
          assert k != 0;
          assert words[k] == words[1..][k - 1];
        }
      }
      found
  }

  /**
   * containsProfanity: false for a missing, non-string or empty input; otherwise whether some
   * normalised word occurs in the normalised text or in the normalised text with the special
   * characters stripped first.
   */
  function ContainsProfanity(text: Option<string>): (r: bool)
    ensures text.None? || text.value == [] ==> !r
    ensures text.Some? && text.value != [] ==>
              (r <==> exists k :: 0 <= k < |Words| &&
                        (Includes(Normalize(text), Normalize(Some(Words[k])))
                         || Includes(Normalize(Some(Without(text.value, IsSpecial))), Normalize(Some(Words[k])))))
  {
    if text.None? || text.value == [] then false
    else
      AnyWordIn(Normalize(text), Words)
      || AnyWordIn(Normalize(Some(Without(text.value, IsSpecial))), Words)
  }

  lemma {:induction false} LowerWithout(s: string, drop: char -> bool)
    requires forall c :: drop(LowerChar(c)) == drop(c)
    ensures Lower(Without(s, drop)) == Without(Lower(s), drop)
  {
    if s != [] {
      LowerWithout(s[1..], drop);
      assert Lower(s)[1..] == Lower(s[1..]);
      if !drop(s[0]) {
        assert Lower([s[0]] + Without(s[1..], drop)) == [LowerChar(s[0])] + Lower(Without(s[1..], drop));
      }
    }
  }

  lemma {:induction false} WithoutSpaceThenPunct(s: string)
    ensures Without(Without(s, IsSpace), IsPunct) == Without(s, IsSpecial)
  {
    if s != [] {
      WithoutSpaceThenPunct(s[1..]);
    }
  }

  lemma {:induction false} LowerKeepsSpecial(c: char)
    ensures IsSpace(LowerChar(c)) == IsSpace(c) && IsPunct(LowerChar(c)) == IsPunct(c)
    ensures IsSpecial(LowerChar(c)) == IsSpecial(c)
  {
    if 'A' <= c <= 'Z' {
      assert 'a' <= LowerChar(c) <= 'z';
    }
  }

  /**
   * The second pass of containsProfanity can never succeed where the first failed: stripping
   * the special characters before normalising yields the same normalised text.
   */
  lemma {:induction false} StrippedPassRedundant(t: string)
    requires t != []
    ensures Normalize(Some(Without(t, IsSpecial))) == Normalize(Some(t))
  {
    forall c ensures IsSpecial(LowerChar(c)) == IsSpecial(c) { LowerKeepsSpecial(c); }
    var stripped := Without(t, IsSpecial);
    LowerWithout(t, IsSpecial);
    var ls := Lower(stripped);
    assert ls == Without(Lower(t), IsSpecial);
    WithoutSpaceThenPunct(Lower(t));
    WithoutSpaceThenPunct(ls);
    assert Without(ls, IsSpecial) == ls;
    if stripped == [] {
      assert Without(Lower(t), IsSpecial) == [];
    }
  }

  /** Hence containsProfanity is exactly the first pass. */
  lemma {:induction false} ContainsProfanityFirstPass(t: string)
    requires t != []
    ensures ContainsProfanity(Some(t)) == AnyWordIn(Normalize(Some(t)), Words)
  {
    StrippedPassRedundant(t);
  }

  // ---------------------------------------------------------------- validateMessage

  datatype Verdict = Accepted | Rejected(error: string)

  const MissingMessage := "메시지가 없습니다."
  const BlankMessage := "메시지를 입력해주세요."
  const ProfaneMessage := "부적절한 표현이 포함되어 전송할 수 없습니다."

  /** validateMessage: the first failing check, in order, decides the rejection. */
  function ValidateMessage(message: Option<string>): (v: Verdict)
    ensures (message.None? || message.value == []) <==> v == Rejected(MissingMessage)
    ensures v == Rejected(BlankMessage) <==>
              message.Some? && message.value != [] && forall i :: 0 <= i < |message.value| ==> IsSpace(message.value[i])
    ensures v == Rejected(ProfaneMessage) <==>
              message.Some? && Trim(message.value) != [] && ContainsProfanity(message)
    ensures v == Accepted <==>
              message.Some? && (exists i :: 0 <= i < |message.value| && !IsSpace(message.value[i]))
              && !AnyWordIn(Normalize(message), Words)
  {
    if message.None? || message.value == [] then Rejected(MissingMessage)
    else
      TrimEmptyIffBlank(message.value);
      ContainsProfanityFirstPass(message.value);
      if Trim(message.value) == [] then Rejected(BlankMessage)
      else if ContainsProfanity(message) then Rejected(ProfaneMessage)
      else Accepted
  }
}
