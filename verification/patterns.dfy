/**
 * The regular expressions `FeedbackLoop.analyze_errors` applies to a
 * transcript, written as explicit scans. Each pattern has a declarative
 * definition of "matches at position i" and a search that returns the
 * leftmost such position, which is what Python's `re.search` reports.
 * Python's `.` stops at a newline, so every `(.+)` group is the rest of the
 * current line and needs at least one character before the newline.
 */
module Patterns {

  import opened Wrappers
  import opened Text

  /** `\w` restricted to ASCII: letters, digits and the underscore. */
  predicate IsWordChar(c: char) {
    ('a' <= c <= 'z') || ('A' <= c <= 'Z') || ('0' <= c <= '9') || c == '_'
  }

  predicate AllWord(s: string) {
    forall k :: 0 <= k < |s| ==> IsWordChar(s[k])
  }

  /** The end of the run of word characters that starts at `i`. */
  function WordEnd(s: string, i: nat): (e: nat)
    requires i <= |s|
    ensures i <= e <= |s|
    ensures AllWord(s[i..e])
    ensures e < |s| ==> !IsWordChar(s[e])
    decreases |s| - i
  {
    if i < |s| && IsWordChar(s[i]) then
      var e := WordEnd(s, i + 1);
      assert s[i..e] == [s[i]] + s[i + 1..e];
      e
    else i
  }

  /** The end of the line that position `i` lies on. */
  function LineEnd(s: string, i: nat): (e: nat)
    requires i <= |s|
    ensures i <= e <= |s|
    ensures '\n' !in s[i..e]
    ensures e < |s| ==> s[e] == '\n'
    decreases |s| - i
  {
    if i < |s| && s[i] != '\n' then
      var e := LineEnd(s, i + 1);
      assert s[i..e] == [s[i]] + s[i + 1..e];
      e
    else i
  }

  /** A line without newlines from `a` to `b`, ended by a newline or the
      end of `s`, ends at `b`. */
  lemma {:induction false} LineEndIs(s: string, a: nat, b: nat)
    requires a <= b <= |s|
    requires forall k :: a <= k < b ==> s[k] != '\n'
    requires b < |s| ==> s[b] == '\n'
    ensures LineEnd(s, a) == b
    decreases b - a
  {
    if a < b {
      LineEndIs(s, a + 1, b);
    }
  }

  /** What a greedy `(.+)` starting at `i` captures. */
  function RestOfLine(s: string, i: nat): (r: string)
    requires i <= |s|
    ensures '\n' !in r
    ensures i < |s| && s[i] != '\n' ==> r != []
  {
    s[i..LineEnd(s, i)]
  }

  /** The end of the run of digits that starts at `i`. */
  function DigitEnd(s: string, i: nat): (e: nat)
    requires i <= |s|
    ensures i <= e <= |s|
    ensures AllDigits(s[i..e])
    ensures e < |s| ==> !IsDigit(s[e])
    decreases |s| - i
  {
    if i < |s| && IsDigit(s[i]) then
      var e := DigitEnd(s, i + 1);
      assert s[i..e] == [s[i]] + s[i + 1..e];
      e
    else i
  }

  /** A digit run from `a` to `b` that no digit follows ends at `b`. */
  lemma {:induction false} DigitEndIs(s: string, a: nat, b: nat)
    requires a <= b <= |s|
    requires forall k :: a <= k < b ==> IsDigit(s[k])
    requires b < |s| ==> !IsDigit(s[b])
    ensures DigitEnd(s, a) == b
    decreases b - a
  {
    if a < b {
      DigitEndIs(s, a + 1, b);
    }
  }

  // ---------------------------------------------------------------------
  // `(\w+Error): (.+)`
  // ---------------------------------------------------------------------

  const ErrorColon := "Error: "

  /** The regular expression matches at `i` with `\w+` spanning `s[i..j]`. */
  ghost predicate ExceptionShape(s: string, i: nat, j: nat) {
    && i < j
    && j + 8 <= |s|
    && AllWord(s[i..j])
    && s[j..j + 7] == ErrorColon
    && s[j + 7] != '\n'
  }

  ghost predicate ExceptionMatchesAt(s: string, i: nat) {
    exists j: nat :: ExceptionShape(s, i, j)
  }

  /** Decides `ExceptionMatchesAt`: `\w+Error` must end where the run of
      word characters from `i` ends, since the `:` after it is no word
      character. */
  predicate ExceptionAt(s: string, i: nat) {
    && i < |s|
    && var e := WordEnd(s, i);
    && i + 6 <= e
    && e + 3 <= |s|
    && s[e - 5..e + 2] == ErrorColon
    && s[e + 2] != '\n'
  }

  /** However `\w+` backtracks, it can only stop five characters before the
      end of the word run, so the match and its groups are unique. */
  lemma GreedyWordEnd(s: string, i: nat, j: nat)
    requires ExceptionShape(s, i, j)
    ensures WordEnd(s, i) == j + 5
  {
    var e := WordEnd(s, i);
    assert s[j + 5] == ':' by { assert s[j..j + 7][5] == s[j + 5]; }
    assert forall k | i <= k < j + 5 :: IsWordChar(s[k]) by {
      forall k | i <= k < j + 5 ensures IsWordChar(s[k]) {
        if k < j {
          assert s[k] == s[i..j][k - i];
        } else {
          assert s[k] == s[j..j + 7][k - j];
        }
      }
    }
    assert forall k | i <= k < e :: IsWordChar(s[k]) by {
      forall k | i <= k < e ensures IsWordChar(s[k]) {
        assert s[k] == s[i..e][k - i];
      }
    }
  }

  lemma ExceptionAtIff(s: string, i: nat)
    ensures ExceptionAt(s, i) <==> ExceptionMatchesAt(s, i)
  {
    if ExceptionAt(s, i) {
      var e := WordEnd(s, i);
      assert s[i..e - 5] == s[i..e][..e - 5 - i];
      assert ExceptionShape(s, i, e - 5);
    }
    if ExceptionMatchesAt(s, i) {
      var j: nat :| ExceptionShape(s, i, j);
      GreedyWordEnd(s, i, j);
    }
  }

  /** `re.search(r'(\w+Error): (.+)', s)`: the leftmost match position. */
  function FindException(s: string): (r: Option<nat>)
    ensures r.Some? ==> ExceptionMatchesAt(s, r.value)
    ensures r.Some? ==> forall k: nat :: k < r.value ==> !ExceptionMatchesAt(s, k)
    ensures r.None? ==> forall k: nat :: !ExceptionMatchesAt(s, k)
  {
    var r := FirstFrom(|s|, (i: nat) => ExceptionAt(s, i), 0);
    assert forall k: nat :: ExceptionAt(s, k) <==> ExceptionMatchesAt(s, k) by {
      forall k: nat ensures ExceptionAt(s, k) <==> ExceptionMatchesAt(s, k) {
        ExceptionAtIff(s, k);
      }
    }
    assert forall k: nat :: k < |s| ==> ((i: nat) => ExceptionAt(s, i))(k) == ExceptionAt(s, k);
    r
  }

  /** The two groups of the exception match at `i`: the exception name and
      the rest of its line. */
  function ExceptionGroups(s: string, i: nat): (g: (string, string))
    requires ExceptionMatchesAt(s, i)
    ensures forall j: nat :: ExceptionShape(s, i, j) ==> g.0 == s[i..j + 5] && g.1 == RestOfLine(s, j + 7)
    ensures |g.0| >= 6 && g.0[|g.0| - 5..] == "Error" && AllWord(g.0)
    ensures g.1 != [] && '\n' !in g.1
  {
    ExceptionGroupsFacts(s, i);
    var e := WordEnd(s, i);
    (s[i..e], RestOfLine(s, e + 2))
  }

  lemma ExceptionGroupsFacts(s: string, i: nat)
    requires ExceptionMatchesAt(s, i)
    ensures i + 6 <= WordEnd(s, i) && WordEnd(s, i) + 3 <= |s|
    ensures forall j: nat :: ExceptionShape(s, i, j) ==> j + 5 == WordEnd(s, i)
    ensures var w := s[i..WordEnd(s, i)]; w[|w| - 5..] == "Error"
    ensures s[WordEnd(s, i) + 2] != '\n'
  {
    ExceptionAtIff(s, i);
    var e := WordEnd(s, i);
    forall j: nat | ExceptionShape(s, i, j) ensures j + 5 == e {
      GreedyWordEnd(s, i, j);
    }
    assert ExceptionAt(s, i);
    assert s[e - 5..e] == "Error" by {
      assert s[e - 5..e] == s[e - 5..e + 2][..5];
      assert ErrorColon[..5] == "Error";
    }
    assert s[i..e][e - i - 5..] == s[e - 5..e];
  }

  // ---------------------------------------------------------------------
  // `AssertionError: (.+)` and `FAILED (.+)`: a literal, then `(.+)`
  // ---------------------------------------------------------------------

  const AssertionLiteral := "AssertionError: "
  const FailedLiteral := "FAILED "

  /** `lit` followed by at least one character of the same line, at `i`. */
  predicate LiteralRestAt(s: string, lit: string, i: nat) {
    i + |lit| < |s| && s[i..i + |lit|] == lit && s[i + |lit|] != '\n'
  }

  /** `i` is the leftmost position where `lit` followed by text matches. */
  ghost predicate LeftmostLiteral(s: string, lit: string, i: nat) {
    LiteralRestAt(s, lit, i) && forall k: nat :: k < i ==> !LiteralRestAt(s, lit, k)
  }

  /** `re.search(lit + r'(.+)', s)`: the leftmost match position. */
  function FindLiteralRest(s: string, lit: string): (r: Option<nat>)
    ensures r.Some? ==> LeftmostLiteral(s, lit, r.value)
    ensures r.None? ==> forall k: nat :: !LiteralRestAt(s, lit, k)
  {
    var r := FirstFrom(|s|, (i: nat) => LiteralRestAt(s, lit, i), 0);
    assert forall k: nat :: k < |s| ==> ((i: nat) => LiteralRestAt(s, lit, i))(k) == LiteralRestAt(s, lit, k);
    r
  }

  // ---------------------------------------------------------------------
  // `line (\d+)`
  // ---------------------------------------------------------------------

  const LineLiteral := "line "

  predicate LineNumberAt(s: string, i: nat) {
    i + 5 < |s| && s[i..i + 5] == LineLiteral && IsDigit(s[i + 5])
  }

  /** The digits a greedy `(\d+)` captures after `line ` at `i`. */
  function LineDigits(s: string, i: nat): (ds: string)
    requires LineNumberAt(s, i)
    ensures ds != [] && AllDigits(ds)
  {
    s[i + 5..DigitEnd(s, i + 5)]
  }

  /** `int(re.search(r'line (\d+)', s).group(1))`, or `None` when the
      pattern does not occur. */
  function FailedLine(s: string): (r: Option<nat>)
    ensures r.None? <==> forall k: nat :: !LineNumberAt(s, k)
    ensures r.Some? ==> exists i: nat ::
      && LineNumberAt(s, i)
      && (forall k: nat :: k < i ==> !LineNumberAt(s, k))
      && r.value == DecimalValue(LineDigits(s, i))
  {
    var f := FirstFrom(|s|, (i: nat) => LineNumberAt(s, i), 0);
    assert forall k: nat :: k < |s| ==> ((i: nat) => LineNumberAt(s, i))(k) == LineNumberAt(s, k);
    match f
    case Some(i) => Some(DecimalValue(LineDigits(s, i)))
    case None => None
  }

  // ---------------------------------------------------------------------
  // The ordered rule list: first rule that matches anywhere wins
  // ---------------------------------------------------------------------

  /** The categories of `error_patterns`, in their order of priority. */
  datatype Rule = ExceptionRule | AssertionRule | TestFailureRule

  const Rules: seq<Rule> := [ExceptionRule, AssertionRule, TestFailureRule]

  /** An error kind and message taken from a transcript. */
  datatype Classified = Classified(errorType: string, message: string)

  /** What one rule reports about the transcript, if its pattern matches. */
  function Apply(rule: Rule, s: string): (c: Option<Classified>)
    ensures c.Some? ==> c.value.errorType != [] && c.value.message != [] && '\n' !in c.value.message
    // the exception rule reports a `\w+Error` name whenever its pattern occurs
    ensures rule == ExceptionRule ==> (c.None? <==> forall k: nat :: !ExceptionMatchesAt(s, k))
    ensures rule == ExceptionRule && c.Some? ==>
      var t := c.value.errorType; |t| >= 6 && t[|t| - 5..] == "Error" && AllWord(t)
    // the literal rules report a fixed kind and the rest of the line after
    // the leftmost occurrence of their literal
    ensures rule == AssertionRule ==> (c.None? <==> forall k: nat :: !LiteralRestAt(s, AssertionLiteral, k))
    ensures rule == AssertionRule && c.Some? ==>
      && c.value.errorType == "AssertionError"
      && exists i: nat :: LeftmostLiteral(s, AssertionLiteral, i) && c.value.message == RestOfLine(s, i + |AssertionLiteral|)
    ensures rule == TestFailureRule ==> (c.None? <==> forall k: nat :: !LiteralRestAt(s, FailedLiteral, k))
    ensures rule == TestFailureRule && c.Some? ==>
      && c.value.errorType == "TestFailure"
      && exists i: nat :: LeftmostLiteral(s, FailedLiteral, i) && c.value.message == RestOfLine(s, i + |FailedLiteral|)
  {
    match rule
    case ExceptionRule => ApplyException(s)
    case AssertionRule => ApplyLiteral(s, AssertionLiteral, "AssertionError")
    case TestFailureRule => ApplyLiteral(s, FailedLiteral, "TestFailure")
  }

  /** The `exception` category: both groups of `(\w+Error): (.+)`. */
  function ApplyException(s: string): (c: Option<Classified>)
    ensures c.None? <==> forall k: nat :: !ExceptionMatchesAt(s, k)
    ensures c.Some? ==> var t := c.value.errorType; |t| >= 6 && t[|t| - 5..] == "Error" && AllWord(t)
    ensures c.Some? ==> c.value.message != [] && '\n' !in c.value.message
  {
    match FindException(s)
    case Some(i) => var g := ExceptionGroups(s, i); Some(Classified(g.0, g.1))
    case None => None
  }

  /** A category whose pattern is `lit + r'(.+)'`: the fixed `kind` and the
      one group. */
  function ApplyLiteral(s: string, lit: string, kind: string): (c: Option<Classified>)
    ensures c.None? <==> forall k: nat :: !LiteralRestAt(s, lit, k)
    ensures c.Some? ==>
      && c.value.errorType == kind
      && exists i: nat :: LeftmostLiteral(s, lit, i) && c.value.message == RestOfLine(s, i + |lit|)
    ensures c.Some? ==> c.value.message != [] && '\n' !in c.value.message
  {
    match FindLiteralRest(s, lit)
    case Some(i) => Some(Classified(kind, RestOfLine(s, i + |lit|)))
    case None => None
  }

  /** The loop over `error_patterns` with its `break` on the first match. */
  function FirstRule(rules: seq<Rule>, s: string): (c: Option<Classified>)
    ensures c.None? <==> forall k :: 0 <= k < |rules| ==> Apply(rules[k], s).None?
    ensures c.Some? ==> exists k :: (0 <= k < |rules| && c == Apply(rules[k], s)
      && forall m :: 0 <= m < k ==> Apply(rules[m], s).None?)
    decreases |rules|
  {
    if rules == [] then None
    else
      match Apply(rules[0], s)
      case Some(c) => Some(c)
      case None =>
        var rest := FirstRule(rules[1..], s);
        assert forall k :: 1 <= k < |rules| ==> rules[k] == rules[1..][k - 1];
        if rest.Some? then
          var k :| 0 <= k < |rules[1..]| && rest == Apply(rules[1..][k], s)
            && forall m :: 0 <= m < k ==> Apply(rules[1..][m], s).None?;
          assert rest == Apply(rules[k + 1], s);
          rest
        else rest
  }

  /** The classification `analyze_errors` derives from a transcript. */
  function Classify(s: string): Option<Classified> {
    FirstRule(Rules, s)
  }

  // ---------------------------------------------------------------------
  // Properties of the classifier
  // ---------------------------------------------------------------------

  /** Priority is by rule, not by position: when `\w+Error: ` followed by
      text occurs anywhere, the leftmost such occurrence decides, however
      early a `FAILED ` line appears. */
  lemma ExceptionRuleWins(s: string, i: nat, j: nat)
    requires ExceptionShape(s, i, j)
    requires forall k: nat :: k < i ==> !ExceptionMatchesAt(s, k)
    ensures Classify(s) == Some(Classified(s[i..j + 5], RestOfLine(s, j + 7)))
  {
    var f := FindException(s);
    if f.None? {
      assert ExceptionMatchesAt(s, i);
    } else if f.value < i {
    } else if f.value > i {
      assert ExceptionMatchesAt(s, i);
    }
    assert Apply(ExceptionRule, s) == Some(Classified(s[i..j + 5], RestOfLine(s, j + 7)));
  }

  /** `TestFailure` is reported only when no `\w+Error: ` match exists. */
  lemma TestFailureOnlyWithoutException(s: string)
    requires Classify(s).Some? && Classify(s).value.errorType == "TestFailure"
    ensures forall k: nat :: !ExceptionMatchesAt(s, k)
  {
    if FindException(s).Some? {
      assert false;
    }
  }

  /** Wherever `AssertionError: (.+)` matches, `(\w+Error): (.+)` matches
      at the same position, with `\w+` spanning `Assertion`. */
  lemma AssertionMatchIsExceptionMatch(s: string, i: nat)
    requires LiteralRestAt(s, AssertionLiteral, i)
    ensures ExceptionShape(s, i, i + 9)
  {
    assert s[i..i + 9] == s[i..i + 16][..9];
    assert s[i + 9..i + 16] == s[i..i + 16][9..];
  }

  /** Hence the assertion rule never decides: dropping it from the rule list
      changes no classification. */
  lemma AssertionRuleNeverDecides(s: string)
    ensures Classify(s) == FirstRule([ExceptionRule, TestFailureRule], s)
  {
    if Apply(ExceptionRule, s).None? {
      if FindLiteralRest(s, AssertionLiteral).Some? {
        var k := FindLiteralRest(s, AssertionLiteral).value;
        AssertionMatchIsExceptionMatch(s, k);
        assert ExceptionMatchesAt(s, k);
        assert false;
      }
      assert Apply(AssertionRule, s).None?;
      assert [ExceptionRule, TestFailureRule][1..] == [TestFailureRule];
      assert Rules[1..][1..] == [TestFailureRule];
    }
  }

  /** A transcript that is one `AssertionError: m` line is classified as an
      `AssertionError` with message `m`. */
  lemma AssertionTranscript(m: string)
    requires m != [] && '\n' !in m
    ensures Classify(AssertionLiteral + m) == Some(Classified("AssertionError", m))
  {
    var s := AssertionLiteral + m;
    assert s[16] == m[0];
    assert LiteralRestAt(s, AssertionLiteral, 0);
    AssertionMatchIsExceptionMatch(s, 0);
    assert s[0..14] == "AssertionError";
    assert forall k | 16 <= k < |s| :: s[k] != '\n' by {
      forall k | 16 <= k < |s| ensures s[k] != '\n' {
        assert s[k] == m[k - 16];
      }
    }
    assert RestOfLine(s, 16) == m by { assert s[16..|s|] == m; }
    ExceptionRuleWins(s, 0, 9);
  }

  /** No rule matching means no `\w+Error: `, `AssertionError: ` or
      `FAILED ` occurrence followed by text on the same line. */
  lemma NoRuleMatches(s: string)
    ensures Classify(s).None? <==>
      && (forall k: nat :: !ExceptionMatchesAt(s, k))
      && (forall k: nat :: !LiteralRestAt(s, FailedLiteral, k))
  {
    AssertionRuleNeverDecides(s);
    assert [ExceptionRule, TestFailureRule][1..] == [TestFailureRule];
    if forall k: nat :: !LiteralRestAt(s, FailedLiteral, k) {
      assert FindLiteralRest(s, FailedLiteral).None?;
    }
  }

  /** The leftmost `line <digit>` decides the line number. */
  lemma FailedLineAt(s: string, i: nat)
    requires LineNumberAt(s, i)
    requires forall k: nat :: k < i ==> !LineNumberAt(s, k)
    ensures FailedLine(s) == Some(DecimalValue(LineDigits(s, i)))
  {
    var j: nat :| LineNumberAt(s, j) && (forall k: nat :: k < j ==> !LineNumberAt(s, k))
      && FailedLine(s).value == DecimalValue(LineDigits(s, j));
    assert j == i;
  }

  /** `line N` is read back as the number `N`, however `N` is followed,
      when no earlier `line <digit>` occurs. */
  lemma FailedLineReadsNumber(pre: string, n: nat, post: string)
    requires forall k: nat :: k < |pre| ==> !LineNumberAt(pre + LineLiteral + ShowNat(n) + post, k)
    requires post == [] || !IsDigit(post[0])
    ensures FailedLine(pre + LineLiteral + ShowNat(n) + post) == Some(n)
  {
    var ds := ShowNat(n);
    var s := pre + LineLiteral + ds + post;
    var i := |pre|;
    var e := i + 5 + |ds|;
    assert s[i..i + 5] == LineLiteral;
    assert s[i + 5] == ds[0];
    assert s[i + 5..e] == ds;
    assert forall k | i + 5 <= k < e :: IsDigit(s[k]) by {
      forall k | i + 5 <= k < e ensures IsDigit(s[k]) {
        assert s[k] == ds[k - i - 5];
      }
    }
    assert e < |s| ==> s[e] == post[0];
    DigitEndIs(s, i + 5, e);
    ShowNatRoundTrip(n);
    FailedLineAt(s, i);
  }

}
