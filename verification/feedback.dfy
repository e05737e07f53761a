/**
 * `FeedbackLoop`: the attempt history of one agent run, the retry predicate,
 * the transcript analyser with its suggestion table, the retry prompt and
 * the summary. The record keeper is an immutable value; an operation that
 * adds to the history returns the new loop.
 */
module Feedback {

  import opened Wrappers
  import opened Text
  import opened Patterns

  const DefaultMaxAttempts := 3
  /** Bounds `add_attempt` and `build_retry_prompt` apply. */
  const CodePreviewChars := 500
  const IssuePreviewChars := 1000
  const FilePreviewChars := 10000
  const ErrorTailChars := 1500
  const BriefErrorChars := 200
  const DigestedAttempts := 2

  /** One fix attempt. `timestamp` is the clock reading the caller supplies. */
  datatype AttemptRecord = AttemptRecord(
    attempt: int,
    filePath: string,
    codeApplied: string,
    errorOutput: string,
    success: bool,
    timestamp: real)

  datatype FeedbackLoop = FeedbackLoop(maxAttempts: int, history: seq<AttemptRecord>)

  /** `FeedbackLoop(max_attempts)`: no attempts recorded yet. */
  function NewLoop(maxAttempts: int): FeedbackLoop {
    FeedbackLoop(maxAttempts, [])
  }

  /** `FeedbackLoop()` with the default ceiling of three attempts. */
  function DefaultLoop(): FeedbackLoop {
    NewLoop(DefaultMaxAttempts)
  }

  /** `add_attempt`: appends one record and keeps only the first 500
      characters of the applied code. */
  function AddAttempt(fl: FeedbackLoop, attempt: int, filePath: string, code: string,
                      errorOutput: string, success: bool, now: real): (r: FeedbackLoop)
    ensures r.maxAttempts == fl.maxAttempts
    ensures |r.history| == |fl.history| + 1
    ensures r.history[..|fl.history|] == fl.history
    ensures var rec := r.history[|fl.history|];
      && rec.attempt == attempt && rec.filePath == filePath && rec.errorOutput == errorOutput
      && rec.success == success && rec.timestamp == now
    ensures var kept := r.history[|fl.history|].codeApplied;
      && |kept| == (if |code| < CodePreviewChars then |code| else CodePreviewChars)
      && kept == code[..|kept|]
  {
    var rec := AttemptRecord(attempt, filePath, Prefix(code, CodePreviewChars), errorOutput, success, now);
    fl.(history := fl.history + [rec])
  }

  /** `should_retry`: attempt `currentAttempt` may be retried iff it is
      below the ceiling the loop was created with. */
  function ShouldRetry(fl: FeedbackLoop, currentAttempt: int): (b: bool)
    ensures b <==> currentAttempt < fl.maxAttempts
  {
    currentAttempt < fl.maxAttempts
  }

  /** With the default ceiling, attempts 0, 1 and 2 may be retried and
      attempt 3 and later may not; recording attempts never moves the ceiling. */
  lemma DefaultRetryCeiling(fl: FeedbackLoop, attempt: int, filePath: string, code: string,
                            errorOutput: string, success: bool, now: real, n: int)
    ensures ShouldRetry(DefaultLoop(), 2) && !ShouldRetry(DefaultLoop(), 3)
    ensures ShouldRetry(DefaultLoop(), n) <==> n < 3
    ensures ShouldRetry(AddAttempt(fl, attempt, filePath, code, errorOutput, success, now), n)
        == ShouldRetry(fl, n)
  {
  }

  // ---------------------------------------------------------------------
  // Analysis of an error transcript
  // ---------------------------------------------------------------------

  /** The `analysis` dictionary, with absence made explicit. */
  datatype Analysis = Analysis(
    errorType: Option<string>,
    errorMessage: Option<string>,
    failedLine: Option<nat>,
    suggestions: seq<string>)

  const NameHint := "Check for undefined variables or missing imports"
  const AttributeHint := "Verify object has the expected attributes/methods"
  const TypeHint := "Check function arguments and type compatibility"
  const ImportHint := "Verify import paths and module availability"
  const SyntaxHint := "Review code syntax and indentation"
  const AssertionHint := "The fix didn't achieve expected behavior - review logic"
  const DjangoHint := "Ensure Django settings are properly configured"
  const RepeatingHint := "CRITICAL: Same error repeating - try a different approach"

  /** The rows of the suggestion table, and `Untabled` for every other
      kind. `ImportError` and `ModuleNotFoundError` share a row. */
  datatype Kind = NameKind | AttributeKind | TypeKind | ImportKind | SyntaxKind | AssertionKind | Untabled

  /** Which row of the `if`/`elif` chain of `_generate_suggestions` an error
      kind selects, tested in the chain's order. */
  function KindOf(errorType: string): Kind {
    if errorType == "NameError" then NameKind
    else if errorType == "AttributeError" then AttributeKind
    else if errorType == "TypeError" then TypeKind
    else if errorType == "ImportError" || errorType == "ModuleNotFoundError" then ImportKind
    else if errorType == "SyntaxError" then SyntaxKind
    else if errorType == "AssertionError" then AssertionKind
    else Untabled
  }

  /** The kinds the suggestion table has a fixed message for. */
  predicate IsTabledKind(errorType: string) {
    KindOf(errorType) != Untabled
  }

  /** The `if`/`elif` chain of `_generate_suggestions`: a tabled kind's own
      message, else the Django hint when the message mentions Django. */
  function KindHints(errorType: string, errorMessage: string): (r: seq<string>)
    ensures |r| <= 1 && RepeatingHint !in r
    ensures IsTabledKind(errorType) ==> |r| == 1 && r[0] != DjangoHint
    ensures !IsTabledKind(errorType) ==>
      if Contains(errorMessage, "Django") then r == [DjangoHint] else r == []
    // the table itself: each named kind draws its own message
    ensures errorType == "NameError" ==> r == [NameHint]
    ensures errorType == "AttributeError" ==> r == [AttributeHint]
    ensures errorType == "TypeError" ==> r == [TypeHint]
    ensures errorType == "ImportError" || errorType == "ModuleNotFoundError" ==> r == [ImportHint]
    ensures errorType == "SyntaxError" ==> r == [SyntaxHint]
    ensures errorType == "AssertionError" ==> r == [AssertionHint]
  {
    match KindOf(errorType)
    case NameKind => [NameHint]
    case AttributeKind => [AttributeHint]
    case TypeKind => [TypeHint]
    case ImportKind => [ImportHint]
    case SyntaxKind => [SyntaxHint]
    case AssertionKind => [AssertionHint]
    case Untabled => if Contains(errorMessage, "Django") then [DjangoHint] else []
  }

  /** The anti-repetition rule: at least two recorded attempts, and the new
      error kind occurs in the most recent attempt's transcript. */
  predicate IsRepeating(history: seq<AttemptRecord>, errorType: string) {
    |history| > 1 && Contains(history[|history| - 1].errorOutput, errorType)
  }

  /** `_generate_suggestions`. */
  function GenerateSuggestions(history: seq<AttemptRecord>, errorType: string,
                               errorMessage: string): (r: seq<string>)
    ensures 0 < |r| <= 2 || (r == [] && !IsTabledKind(errorType))
    ensures (RepeatingHint in r) <==> IsRepeating(history, errorType)
    ensures RepeatingHint in r ==> r[|r| - 1] == RepeatingHint
    ensures (DjangoHint in r) <==> !IsTabledKind(errorType) && Contains(errorMessage, "Django")
    ensures IsTabledKind(errorType) ==> |r| >= 1 && r[0] != DjangoHint && r[0] != RepeatingHint
    // a tabled kind's own message comes first
    ensures IsTabledKind(errorType) ==> r[0] == KindHints(errorType, errorMessage)[0]
    // exactly the table entry, then the repetition warning when the kind repeats
    ensures r == KindHints(errorType, errorMessage) + (if IsRepeating(history, errorType) then [RepeatingHint] else [])
  {
    var k := KindHints(errorType, errorMessage);
    if IsRepeating(history, errorType) then
      assert RepeatingHint !in k;
      k + [RepeatingHint]
    else k
  }

  /** Python truthiness of an optional string: `None` and `""` are false. */
  predicate Truthy(o: Option<string>) {
    o.Some? && o.value != []
  }

  /** `analyze_errors`: the first rule that matches gives kind and message;
      the line number is looked up on its own; suggestions only follow a
      recognised kind. */
  function AnalyzeErrors(fl: FeedbackLoop, errorOutput: string): (a: Analysis)
    ensures a.failedLine == FailedLine(errorOutput)
    ensures a.errorType.None? <==> Classify(errorOutput).None?
    ensures Classify(errorOutput).Some? ==>
      && a.errorType == Some(Classify(errorOutput).value.errorType)
      && a.errorMessage == Some(Classify(errorOutput).value.message)
    ensures a.errorType.None? ==> a.errorMessage.None? && a.suggestions == []
    ensures a.errorType.Some? ==>
      && Truthy(a.errorType) && Truthy(a.errorMessage)
      && a.suggestions == GenerateSuggestions(fl.history, a.errorType.value, a.errorMessage.value)
  {
    var line := FailedLine(errorOutput);
    match Classify(errorOutput)
    case None => Analysis(None, None, line, [])
    case Some(c) =>
      var a := Analysis(Some(c.errorType), Some(c.message), line, []);
      if Truthy(a.errorType) then
        a.(suggestions := GenerateSuggestions(fl.history, c.errorType, c.message))
      else a
  }

  /** The history matters to the analysis only through the anti-repetition
      rule: two loops that agree on that rule analyse alike. Analysing reads
      the history and returns no new loop, so it cannot change it. */
  lemma AnalysisDependsOnlyOnRepetition(fl1: FeedbackLoop, fl2: FeedbackLoop, s: string)
    requires forall t :: IsRepeating(fl1.history, t) <==> IsRepeating(fl2.history, t)
    ensures AnalyzeErrors(fl1, s) == AnalyzeErrors(fl2, s)
  {
    var c := Classify(s);
    if c.Some? {
      assert IsRepeating(fl1.history, c.value.errorType) <==> IsRepeating(fl2.history, c.value.errorType);
    }
  }

  /** Without a matching rule the analysis is empty except for the line
      number, which is found independently. */
  lemma UnrecognisedTranscript(fl: FeedbackLoop, s: string)
    requires forall k: nat :: !ExceptionMatchesAt(s, k)
    requires forall k: nat :: !LiteralRestAt(s, FailedLiteral, k)
    ensures AnalyzeErrors(fl, s) == Analysis(None, None, FailedLine(s), [])
  {
    NoRuleMatches(s);
  }

  /** The leftmost `\w+Error: ` occurrence decides the kind and message,
      and the suggestions follow from that kind. */
  lemma ExceptionAnalysis(fl: FeedbackLoop, s: string, i: nat, j: nat)
    requires ExceptionShape(s, i, j)
    requires forall k: nat :: k < i ==> !ExceptionMatchesAt(s, k)
    ensures var a := AnalyzeErrors(fl, s);
      && a.errorType == Some(s[i..j + 5])
      && a.errorMessage == Some(RestOfLine(s, j + 7))
      && a.suggestions == GenerateSuggestions(fl.history, s[i..j + 5], RestOfLine(s, j + 7))
  {
    ExceptionRuleWins(s, i, j);
  }

  /** A one-line transcript `<kind>: m`, where the kind is a run of word
      characters ending in `Error`, is classified by its own kind and
      message. */
  lemma OneLineException(kind: string, m: string)
    requires |kind| > 5 && AllWord(kind) && kind[|kind| - 5..] == "Error"
    requires m != [] && '\n' !in m
    ensures Classify(kind + ": " + m) == Some(Classified(kind, m))
  {
    var s := kind + ": " + m;
    var j := |kind| - 5;
    assert s[0..j] == kind[..j];
    assert AllWord(s[0..j]) by {
      forall k | 0 <= k < j ensures IsWordChar(s[0..j][k]) {
        assert s[0..j][k] == kind[k];
      }
    }
    assert s[j..j + 7] == ErrorColon by {
      assert s[j..j + 5] == kind[j..] && s[j + 5..j + 7] == ": ";
      assert s[j..j + 7] == s[j..j + 5] + s[j + 5..j + 7];
    }
    assert s[j + 7] == m[0];
    assert ExceptionShape(s, 0, j);
    assert forall k | j + 7 <= k < |s| :: s[k] != '\n' by {
      forall k | j + 7 <= k < |s| ensures s[k] != '\n' {
        assert s[k] == m[k - j - 7];
      }
    }
    LineEndIs(s, j + 7, |s|);
    assert RestOfLine(s, j + 7) == m by { assert s[j + 7..|s|] == m; }
    assert s[0..j + 5] == kind;
    ExceptionRuleWins(s, 0, j);
  }

  /** A recognised kind puts its own suggestion first. */
  lemma KnownKindFirst(fl: FeedbackLoop, s: string, kind: string, m: string)
    requires Classify(s) == Some(Classified(kind, m))
    requires kind != [] && m != [] && IsTabledKind(kind)
    ensures var a := AnalyzeErrors(fl, s);
      && a.errorType == Some(kind) && a.errorMessage == Some(m)
      && |a.suggestions| >= 1 && a.suggestions[0] == KindHints(kind, m)[0]
  {
  }

  /** A recognised kind that repeats the latest attempt's draws exactly its
      own suggestion and then the repetition warning. */
  lemma RepeatedKindLast(fl: FeedbackLoop, s: string, kind: string, m: string)
    requires Classify(s) == Some(Classified(kind, m))
    requires kind != [] && m != [] && IsTabledKind(kind) && IsRepeating(fl.history, kind)
    ensures AnalyzeErrors(fl, s).suggestions == KindHints(kind, m) + [RepeatingHint]
  {
  }

  /** `NameError: m` on one line is classified as a `NameError` with
      message `m` and draws the undefined-name suggestion first. */
  lemma NameErrorExample(fl: FeedbackLoop, m: string)
    requires m != [] && '\n' !in m
    ensures var a := AnalyzeErrors(fl, "NameError" + ": " + m);
      && a.errorType == Some("NameError") && a.errorMessage == Some(m)
      && a.suggestions[0] == NameHint
  {
    assert AllWord("NameError");
    OneLineException("NameError", m);
    KnownKindFirst(fl, "NameError" + ": " + m, "NameError", m);
  }

  /** Two failed attempts whose latest transcript mentions `TypeError`
      make a new `TypeError` draw the repetition warning after the
      type-mismatch suggestion. */
  lemma RepeatedTypeErrorExample(fl: FeedbackLoop, m: string)
    requires |fl.history| == 2 && Contains(fl.history[1].errorOutput, "TypeError")
    requires m != [] && '\n' !in m
    ensures var a := AnalyzeErrors(fl, "TypeError" + ": " + m);
      a.errorType == Some("TypeError") && a.suggestions == [TypeHint, RepeatingHint]
  {
    assert AllWord("TypeError");
    OneLineException("TypeError", m);
    assert IsRepeating(fl.history, "TypeError");
    TypeErrorHint(m);
    RepeatedKindLast(fl, "TypeError" + ": " + m, "TypeError", m);
  }

  /** `TypeError` is a tabled kind, and its hint is the type-mismatch one. */
  lemma TypeErrorHint(m: string)
    ensures IsTabledKind("TypeError") && KindHints("TypeError", m) == [TypeHint]
  {
    assert "TypeError"[0] != "NameError"[0];
    assert |"TypeError"| != |"AttributeError"|;
  }

  // ---------------------------------------------------------------------
  // The retry prompt
  // ---------------------------------------------------------------------

  /** One line of the previous-attempts digest. */
  datatype Brief = Brief(attempt: int, lastLine: string)

  /** The `**Previous Attempts**` section: how many attempts failed, and the
      briefs of the most recent ones. */
  datatype Digest = Digest(failedCount: nat, recent: seq<Brief>)

  /** The variable parts of the prompt `build_retry_prompt` returns, in the
      order they appear; its fixed wording is not modelled. */
  datatype RetryPrompt = RetryPrompt(
    issue: string,
    filePath: string,
    code: string,
    errorTail: string,
    errorType: string,
    errorMessage: string,
    failedLine: Option<nat>,
    suggestions: seq<string>,
    previous: Option<Digest>)

  /** `attempt['error_output'][:200].split('\n')[-1]`. */
  function BriefError(errorOutput: string): (r: string)
    ensures |r| <= BriefErrorChars && '\n' !in r
    ensures var head := Prefix(errorOutput, BriefErrorChars); |r| <= |head| && r == head[|head| - |r|..]
    // the longest such suffix: a shorter one stops right after a newline
    ensures var head := Prefix(errorOutput, BriefErrorChars); |r| < |head| ==> head[|head| - |r| - 1] == '\n'
    ensures '\n' !in Prefix(errorOutput, BriefErrorChars) ==> r == Prefix(errorOutput, BriefErrorChars)
  {
    LastPiece(Prefix(errorOutput, BriefErrorChars), '\n')
  }

  /** `attempts_history[-2:]`: the last two records, or fewer. */
  function Recent(history: seq<AttemptRecord>): (r: seq<AttemptRecord>)
    ensures |r| == if |history| < DigestedAttempts then |history| else DigestedAttempts
    ensures r == history[|history| - |r|..]
  {
    if |history| <= DigestedAttempts then history else history[|history| - DigestedAttempts..]
  }

  function Briefs(records: seq<AttemptRecord>): (r: seq<Brief>)
    ensures |r| == |records|
    ensures forall k :: 0 <= k < |records| ==>
      r[k] == Brief(records[k].attempt, BriefError(records[k].errorOutput))
    decreases |records|
  {
    if records == [] then []
    else [Brief(records[0].attempt, BriefError(records[0].errorOutput))] + Briefs(records[1..])
  }

  /** The `**Previous Attempts**` section: present once an attempt has been
      recorded; it counts them all and digests at most the last two. */
  function DigestOf(history: seq<AttemptRecord>): (d: Option<Digest>)
    ensures d.Some? <==> |history| > 0
    ensures d.Some? ==>
      && d.value.failedCount == |history|
      && |d.value.recent| == (if |history| < DigestedAttempts then |history| else DigestedAttempts)
      && d.value.recent == Briefs(history[|history| - |d.value.recent|..])
  {
    if |history| > 0 then
      var recent := Recent(history);
      Some(Digest(|history|, Briefs(recent)))
    else None
  }

  /** Python's `x or default` on an optional string. */
  function OrElse(o: Option<string>, default: string): (r: string)
    ensures Truthy(o) ==> r == o.value
    ensures !Truthy(o) ==> r == default
  {
    if Truthy(o) then o.value else default
  }

  /** The prompt `build_retry_prompt` assembles from an analysis of the
      current error: the issue's first 1000 characters, the file's first
      10000, the transcript's last 1500, the analysis with its fallbacks,
      and the digest of earlier attempts. */
  function PromptFrom(a: Analysis, history: seq<AttemptRecord>, originalIssue: string,
                      fileContent: string, filePath: string, currentError: string): (p: RetryPrompt)
    ensures |p.issue| == (if |originalIssue| < IssuePreviewChars then |originalIssue| else IssuePreviewChars)
    ensures p.issue == originalIssue[..|p.issue|]
    ensures |p.code| == (if |fileContent| < FilePreviewChars then |fileContent| else FilePreviewChars)
    ensures p.code == fileContent[..|p.code|]
    ensures |p.errorTail| == (if |currentError| < ErrorTailChars then |currentError| else ErrorTailChars)
    ensures p.errorTail == currentError[|currentError| - |p.errorTail|..]
    ensures p.filePath == filePath
    ensures p.errorType == OrElse(a.errorType, "Unknown")
    ensures p.errorMessage == OrElse(a.errorMessage, "See above")
    ensures p.suggestions == a.suggestions
    ensures p.failedLine.Some? <==> a.failedLine.Some? && a.failedLine.value != 0
    ensures p.failedLine.Some? ==> p.failedLine == a.failedLine
    ensures p.previous == DigestOf(history)
  {
    var line := if a.failedLine.Some? && a.failedLine.value != 0 then a.failedLine else None;
    RetryPrompt(
      Prefix(originalIssue, IssuePreviewChars),
      filePath,
      Prefix(fileContent, FilePreviewChars),
      LastChars(currentError, ErrorTailChars),
      OrElse(a.errorType, "Unknown"),
      OrElse(a.errorMessage, "See above"),
      line,
      a.suggestions,
      DigestOf(history))
  }

  /** `build_retry_prompt`: the prompt built from this loop's own analysis
      of the current error and its own history. */
  function BuildRetryPrompt(fl: FeedbackLoop, originalIssue: string, fileContent: string,
                            filePath: string, currentError: string): (p: RetryPrompt)
    ensures p.failedLine.Some? <==> FailedLine(currentError).Some? && FailedLine(currentError).value != 0
    ensures Classify(currentError).None? ==>
      p.errorType == "Unknown" && p.errorMessage == "See above" && p.suggestions == []
    ensures Classify(currentError).Some? ==> p.errorType == Classify(currentError).value.errorType
    ensures p.previous.Some? <==> |fl.history| > 0
  {
    PromptFrom(AnalyzeErrors(fl, currentError), fl.history, originalIssue, fileContent, filePath, currentError)
  }

  /** However long the issue, the file and the transcripts are, each text the
      prompt copies from them is bounded. */
  lemma RetryPromptBounded(fl: FeedbackLoop, issue: string, content: string, path: string, err: string)
    ensures var p := BuildRetryPrompt(fl, issue, content, path, err);
      && |p.issue| <= IssuePreviewChars && |p.code| <= FilePreviewChars && |p.errorTail| <= ErrorTailChars
      && (p.previous.Some? ==> forall k :: 0 <= k < |p.previous.value.recent| ==>
            |p.previous.value.recent[k].lastLine| <= BriefErrorChars)
  {
  }

  // ---------------------------------------------------------------------
  // The summary
  // ---------------------------------------------------------------------

  const NoAttempts := "No attempts made yet"

  /** `✓` for a successful attempt, `✗` otherwise. */
  function StatusMark(success: bool): string {
    if success then "\U{2713}" else "\U{2717}"
  }

  function SummaryLine(rec: AttemptRecord): string {
    StatusMark(rec.success) + " Attempt " + ShowInt(rec.attempt) + ": " + rec.filePath + "\n"
  }

  /** The per-record lines, in history order. */
  function SummaryLines(history: seq<AttemptRecord>): string
    decreases |history|
  {
    if history == [] then "" else SummaryLine(history[0]) + SummaryLines(history[1..])
  }

  function SummaryHeader(count: nat): string {
    "Total attempts: " + ShowNat(count) + "\n"
  }

  /** `get_summary`. */
  function GetSummary(fl: FeedbackLoop): (r: string)
    ensures fl.history == [] <==> r == NoAttempts
  {
    if fl.history == [] then NoAttempts
    else
      assert SummaryHeader(|fl.history|)[..5] == "Total";
      SummaryHeader(|fl.history|) + SummaryLines(fl.history)
  }

  /** The lines of a longer history extend those of a shorter one. */
  lemma {:induction false} SummaryLinesAppend(history: seq<AttemptRecord>, rec: AttemptRecord)
    ensures SummaryLines(history + [rec]) == SummaryLines(history) + SummaryLine(rec)
    decreases |history|
  {
    if history != [] {
      assert (history + [rec])[1..] == history[1..] + [rec];
      SummaryLinesAppend(history[1..], rec);
    }
  }

  /** After `add_attempt`, the summary counts one more attempt, repeats the
      earlier lines unchanged and ends with the new record's line. */
  lemma SummaryAfterAdd(fl: FeedbackLoop, attempt: int, filePath: string, code: string,
                        errorOutput: string, success: bool, now: real)
    ensures var fl' := AddAttempt(fl, attempt, filePath, code, errorOutput, success, now);
      GetSummary(fl') == SummaryHeader(|fl.history| + 1) + SummaryLines(fl.history)
        + SummaryLine(fl'.history[|fl.history|])
  {
    var fl' := AddAttempt(fl, attempt, filePath, code, errorOutput, success, now);
    var rec := fl'.history[|fl.history|];
    assert fl'.history == fl.history + [rec];
    SummaryLinesAppend(fl.history, rec);
    assert SummaryLines(fl'.history) == SummaryLines(fl.history) + SummaryLine(rec);
  }
}
