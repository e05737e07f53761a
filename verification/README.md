# SudoDev agent core in Dafny

SudoDev takes one benchmark issue and tries to fix it inside a sandbox that holds a checked-out repository.
This project models the two core components of that process:

- **The agent pipeline** (`sudodev/core/agent.py`). It starts the sandbox and runs four phases in order. *Reproduce* asks the language model for a script, validates it, writes it and runs it. *Locate* picks the target files, from the issue text or from the model. *Fix* rewrites each target with model-generated code that passes a filter. *Verify* re-runs the script. The sandbox is always cleaned up.
- **The feedback loop** (`sudodev/core/feedback_loop.py`). It records fix attempts and decides whether to retry. It classifies an error transcript with three ordered patterns and finds a line number. It generates suggestions, assembles the variable parts of a retry prompt, and summarises the attempts.

The modules are:

- `Wrappers`: `Option`.
- `Text`: the Python string operations the code uses.
  - `s[:n]` and `s[-n:]`.
  - `strip` over the full `str.isspace` set.
  - `split('\n')`, `join` and `in`.
  - `replace(pat, '')`, as a left-to-right deletion that does not rescan.
  - `int()` and `str()` on integers.
- `Patterns`: the four regular expressions as leftmost-match scanners. Each has a match-level definition, and the scanners are proved against it.
- `Feedback`: the feedback loop.
- `Agent`: the pipeline.

Collaborators are parameters of a `World` value:

- the sandbox's command runner, `run`: a function of the current sandbox files and the command;
- the language model, `complete`: a function of what the prompt is built from;
- whether `sandbox.start()` raises;
- the four extraction and validation helpers.

Files are a map from path to content. Reads and writes are operations on that map.

Each phase returns:

- its verdict, or `Threw` when a collaborator raised;
- the new agent state;
- the log of calls it made.

The run's trace is built from these logs. The trace begins with the sandbox start and ends with the cleanup.

## Model

| member | source | states |
|---|---|---|
| Feedback.AddAttempt | sudodev/core/feedback_loop.py:11-27 | Appends exactly one record. Earlier records are unchanged. The new record holds the given fields and timestamp. Its code is exactly the first `min(500, len)` characters of the applied code. |
| Feedback.ShouldRetry | sudodev/core/feedback_loop.py:29-30 | A retry is allowed iff the current attempt number is below the loop's ceiling. |
| Feedback.DefaultRetryCeiling | sudodev/core/feedback_loop.py:7-30 | With the default ceiling, attempt `n` may be retried iff `n < 3`. Recording an attempt never changes the retry decision. |
| Patterns.FindException | sudodev/core/feedback_loop.py:42-49 | Returns the leftmost position where `(\w+Error): (.+)` matches, or none iff it matches nowhere. The match is defined at the regex level as a word run ending in `Error`, then `: `, then a character that is not a newline. |
| Patterns.ExceptionGroups | sudodev/core/feedback_loop.py:42-53 | The two groups of a match. Group 1 is the greedy word run, which ends in `Error` and has at least one character before it. Group 2 is the non-empty rest of the line. Both are fixed by any decomposition of the match, so the greedy split is unique. |
| Patterns.FindLiteralRest | sudodev/core/feedback_loop.py:43-49 | For `AssertionError: (.+)` and `FAILED (.+)`: returns the leftmost position where the literal is followed by a character that is not a newline, or none iff there is no such position. |
| Patterns.Apply | sudodev/core/feedback_loop.py:41-59 | One rule applied to the transcript. The exception rule reports nothing iff `(\w+Error): (.+)` matches nowhere, and otherwise a word-run kind ending in `Error`. The assertion and test-failure rules report nothing iff their literal is never followed by text on its line. Otherwise they report the fixed kind `AssertionError` or `TestFailure`, with the rest of the line after the leftmost occurrence as the message. Every reported message is non-empty and on one line. |
| Patterns.FirstRule | sudodev/core/feedback_loop.py:41-60 | First-match-wins over the ordered rules. The result is none iff no rule matches. Otherwise it is the result of the first matching rule, and every earlier rule failed. |
| Patterns.ExceptionRuleWins | sudodev/core/feedback_loop.py:41-53 | The leftmost `\w+Error: ` match decides both the kind and the message, whatever the later rules would say. |
| Patterns.AssertionRuleNeverDecides | sudodev/core/feedback_loop.py:41-56 | Classification equals the classification with the `AssertionError` rule removed. Every `AssertionError: ` match is also an exception match at the same position, so that branch is never taken. |
| Patterns.AssertionTranscript | sudodev/core/feedback_loop.py:42-56 | `AssertionError: m` on one line is classified as kind `AssertionError` with message `m`, and the exception rule is the one that produces it. |
| Patterns.TestFailureOnlyWithoutException | sudodev/core/feedback_loop.py:44-59 | A transcript classified as `TestFailure` contains no exception match anywhere. |
| Patterns.NoRuleMatches | sudodev/core/feedback_loop.py:47-60 | Classification is none iff there is neither an exception match nor a `FAILED ` match with a non-empty rest of line. |
| Patterns.FailedLine | sudodev/core/feedback_loop.py:62-64 | The result is none iff `line <digits>` occurs nowhere. Otherwise it is the decimal value of the maximal digit run at the leftmost occurrence. |
| Patterns.FailedLineReadsNumber | sudodev/core/feedback_loop.py:62-64 | Reads back any number printed as `line N`, when no earlier occurrence exists and no digit follows. |
| Text.ShowNatRoundTrip | sudodev/core/feedback_loop.py:62-64 | `int(str(n)) == n`: the decimal digits the line search reads back are those `str` prints. |
| Feedback.KindHints | sudodev/core/feedback_loop.py:76-89 | The `if`/`elif` table: `NameError`, `AttributeError`, `TypeError`, `ImportError` or `ModuleNotFoundError`, `SyntaxError` and `AssertionError` each get exactly their own hint. Any other kind gets the Django hint iff the message mentions `Django`, and nothing otherwise. There is never more than one hint, and never the repetition warning. |
| Feedback.GenerateSuggestions | sudodev/core/feedback_loop.py:71-96 | Exactly the kind's table entry (or the Django hint, or nothing), followed by the repetition warning when the kind repeats. So there are at most two suggestions, and a tabled kind's own table hint comes first. The repetition warning is present iff there are more than one recorded attempts and the kind occurs in the latest transcript, and it always comes last. The Django hint is present iff the kind is untabled and the message mentions `Django`. |
| Feedback.AnalyzeErrors | sudodev/core/feedback_loop.py:32-69 | The line number comes from the independent line search. Kind and message are absent iff no rule matches, and otherwise equal the first matching rule's. Suggestions are empty without a kind, and are those of the kind and message otherwise. |
| Feedback.AnalysisDependsOnlyOnRepetition | sudodev/core/feedback_loop.py:66-94 | Two loops that agree on the repetition rule produce the same analysis. |
| Feedback.UnrecognisedTranscript | sudodev/core/feedback_loop.py:34-64 | With no rule matching, the analysis is empty except for the line number. |
| Feedback.ExceptionAnalysis | sudodev/core/feedback_loop.py:41-67 | The leftmost exception match gives the analysis its kind, its message and the suggestions for them. |
| Feedback.OneLineException | sudodev/core/feedback_loop.py:42-53 | `<kind>: m` on one line, where the kind is a word run ending in `Error`, classifies as `(<kind>, m)`. |
| Feedback.KnownKindFirst | sudodev/core/feedback_loop.py:66-87 | A transcript classified with a tabled kind gets that kind and message, and the kind's table hint comes first among the suggestions. |
| Feedback.RepeatedKindLast | sudodev/core/feedback_loop.py:71-94 | A tabled kind that also occurs in the latest of at least two attempts gets exactly its table hint and then the repetition warning. |
| Feedback.NameErrorExample | sudodev/core/feedback_loop.py:42-77 | `NameError: m` gives kind `NameError`, message `m`, and the undefined-name hint first. |
| Feedback.RepeatedTypeErrorExample | sudodev/core/feedback_loop.py:80-94 | With two attempts and a latest transcript that mentions `TypeError`, a new `TypeError` draws the type hint followed by the repetition warning. |
| Feedback.BriefError | sudodev/core/feedback_loop.py:142 | The last newline-separated piece of the first 200 characters. It is the longest newline-free suffix of them: when it is shorter, the character before it is a newline. It is all of them when they hold no newline. |
| Feedback.DigestOf | sudodev/core/feedback_loop.py:139-143 | The digest is present iff an attempt is recorded. It counts all attempts and briefs at most the last two, in history order. |
| Feedback.PromptFrom | sudodev/core/feedback_loop.py:109-143 | The issue is exactly the first `min(1000, len)` characters, the code the first `min(10000, len)`, and the error the last `min(1500, len)`. Kind and message fall back to `Unknown` and `See above`. The line appears iff the analysis found one and it is non-zero. Suggestions are the analysis's, and the digest is that of the history. |
| Feedback.BuildRetryPrompt | sudodev/core/feedback_loop.py:98-143 | The prompt is built from the loop's own analysis of the current error. Its line appears iff the line search finds a non-zero number. A transcript no rule matches yields `Unknown`, `See above` and no suggestions, and a matched one yields the first matching rule's kind. The previous-attempts digest is present iff an attempt is recorded. |
| Feedback.RetryPromptBounded | sudodev/core/feedback_loop.py:112-143 | Whatever the input lengths, the prompt copies at most 1000 characters of the issue, 10000 of the file and 1500 of the error, and at most 200 of each previous attempt's error. |
| Feedback.GetSummary | sudodev/core/feedback_loop.py:165-175 | The summary is `No attempts made yet` iff nothing is recorded. |
| Feedback.SummaryAfterAdd | sudodev/core/feedback_loop.py:165-175 | After `add_attempt`, the summary's count goes up by one, the earlier lines are repeated unchanged, and the new record's line comes last. |
| Text.SplitJoin | sudodev/core/agent.py:78-79 | Splitting a newline-join of newline-free lines gives them back. |
| Agent.FileTree | sudodev/core/agent.py:64-80 | `_get_file_tree` runs the listing command for the given size. It raises iff that command raises, and otherwise returns the text of the command's result. |
| Agent.FileTreeText | sudodev/core/agent.py:76-80 | A non-zero exit yields `Error getting file list`. A zero exit yields text that, split at newlines, gives exactly the processed lines, or the empty text when no line remains. |
| Agent.ListingLines | sudodev/core/agent.py:78 | The processed listing lines contain no newline. |
| Agent.NonBlank | sudodev/core/agent.py:78 | A line is kept iff it is not blank, and a single line is kept whole iff it is not blank. |
| Agent.NonBlankAppend | sudodev/core/agent.py:78 | Filtering distributes over concatenation, so the kept lines stay in their original order. |
| Agent.Relativize | sudodev/core/agent.py:78 | `line.replace('/testbed/', '')` on every line: one result line per input line, each with every `/testbed/` occurrence removed as `replace` removes it. |
| Text.RemoveAll | sudodev/core/agent.py:78 | `replace(pat, '')` never lengthens the text, and shortens it iff the pattern is non-empty and occurs. |
| Text.RemoveAllAbsent | sudodev/core/agent.py:78 | Without an occurrence, nothing changes. |
| Text.RemoveAllDrops | sudodev/core/agent.py:78 | An occurrence at the front is deleted whole, and removal continues after it. |
| Text.RemoveAllKeepsAll | sudodev/core/agent.py:78 | A prefix none of whose characters can start the pattern is kept as it is. |
| Text.RemovalDoesNotRescan | sudodev/core/agent.py:78 | When the pattern is `x + y` and no occurrence of it in `x + pat + y` starts inside `x`, removal leaves exactly `pat`. The pieces that the deletion joins are not scanned again. |
| Agent.InnerRootAlsoRemoved | sudodev/core/agent.py:78 | `/testbed/` is removed at every occurrence, so `/testbed/<dir>/testbed/<name>` becomes `<dir><name>`. |
| Agent.ReproduceHints | sudodev/core/agent.py:89 | The hints are the fixed header followed by exactly the first `min(1000, len)` characters of the listing. |
| Agent.RunReproScript | sudodev/core/agent.py:100-118 | The script is written and then run, and nothing else is called. The files gain exactly the script. The phase raises iff the run raises. The verdict is true iff the run returned and exited non-zero or printed error markers, and only then is its output kept. |
| Agent.ReproduceBug | sudodev/core/agent.py:82-118 | The listing comes first, and the model is asked with its hints. A listing that raises ends the phase with the state unchanged and only the listing logged. A model that raises ends it with the state unchanged and only the listing and the question logged. Code that does not validate ends it the same way with verdict false, so it is neither written nor run. Validated code gives exactly the calls listing, asking, writing the script with that code, and running it. The phase raises iff the listing or the model raises, or the script run on the files with the script written raises. The script is the only file written, and it runs only right after being written. The verdict is true iff the script ran and exited non-zero or printed error markers. The transcript is stored only on true. The targets are untouched. |
| Agent.LocateFiles | sudodev/core/agent.py:120-148 | Paths named in the issue are taken whole, without any call. Otherwise the model sees a 150-file listing, and is asked iff the listing returns. The phase raises iff the listing or the model raises. The verdict is true iff the model returns paths, and then exactly the first `min(3, len)` are kept. On anything but true, the targets are unchanged. Files and transcript are never changed. |
| Agent.LocateKeepsFiles | sudodev/core/agent.py:120-148 | The files after locating are those the (write-free) log produces. |
| Agent.FixTargets | sudodev/core/agent.py:155-202 | The loop over the remaining targets, given whether an earlier target was written. It visits them in order and stops only at a model call that raises. Each visit reads, asks and writes exactly when the loop body does. The files end as the visits' writes leave them. The result is true iff an earlier or a visited target was written. |
| Agent.GenerateFix | sudodev/core/agent.py:150-202 | Targets are visited in order. A skipped file never stops the loop; only a model call that raises stops it and raises the phase. For each visit, every one of these holds: the read sees the files as the earlier visits left them; the model is asked iff the content is non-empty and at most 32000 characters; the file is written iff the answer's code is non-empty, validates, and differs from the original after stripping both; what is written is exactly that code. The result is true iff some file was written. |
| Agent.FixLogWrites | sudodev/core/agent.py:158-198 | The Fix phase changes the sandbox exactly as the writes in its log do. |
| Agent.OversizedFileSkipped | sudodev/core/agent.py:163-202 | A target over 32000 characters is skipped without asking the model. The phase still returns true when a later target is fixed. |
| Agent.VerifyFix | sudodev/core/agent.py:204-220 | One script run and nothing else. The verdict is true iff the run returned with exit 0 and no error markers, and it raises iff the run raises. |
| Agent.VerifiedIffNotReproduced | sudodev/core/agent.py:204-220 | A script output counts as a verified fix iff it would not count as a reproduced bug. |
| Agent.Run | sudodev/core/agent.py:36-62 | There is one verdict and one log per phase entered, and none iff `start` raised. Each entered phase is the pipeline's phase of that number, run on the state the previous one left, and gives exactly that verdict and log. Every verdict but the last is true, and a run that stops before the fourth phase stops at a phase that did not return true. So the next phase follows whenever a phase returns true. Success holds iff all four phases returned true, so an exception anywhere means failure. The sandbox changes only through the logged writes. |
| Agent.StagesArePhases | sudodev/core/agent.py:42-54 | The four stages are `_reproduce_bug`, then `_locate_files`, `_generate_fix` and `_verify_fix`, each on the state the one before left. |
| Agent.RunInOrder | sudodev/core/agent.py:42-54 | The k-th verdict and log of a run are those of the k-th stage. |
| Agent.RunEndsInOrder | sudodev/core/agent.py:42-62 | Between one and four phases are entered, and the final state is the one the last of them left. |
| Agent.TraceShape | sudodev/core/agent.py:36-62 | The trace starts with the sandbox start and ends with the cleanup, each exactly once. Phases appear in pipeline order, and only the phases that were entered appear. |
| Agent.TaggedOrdered | sudodev/core/agent.py:42-54 | The phases' calls, tagged by phase, are in pipeline order. |

## Left out

- Logging, `print`, `traceback` and the `SYSTEM_PROMPT` text have no effect on any result and are not modelled.
- The prompt builders and the fixed prose of the retry prompt are not modelled. The model keeps the data each prompt is built from (`Request`, `RetryPrompt`), because the builders' source is not part of this model.
- `extract_python_code`, `validate_python_code`, `extract_file_paths` and `extract_error_messages` are uninterpreted parameters (`Tools`), because their source is not part of this model.
- `build_locate_files_prompt` is folded into `LocateRequest`, the data the locate prompt is built from. Its source is not part of this model.
- `create_diff_patch` is left out. Its result is only printed.
- The `find` command's filters are left out. The listing is a command given to the sandbox oracle, which returns the exit code and output.
- The Docker sandbox, the LLM client, temperatures and `max_tokens` are oracles or are dropped.
- `sandbox.read_file` and `sandbox.write_file` are map lookup and update and never raise. The container code that would decide otherwise is not part of this model.
- `time.time()` is the `now` parameter of `AddAttempt`.
- `\w` and `\d` are modelled over ASCII word characters and digits. Python's Unicode classes also accept other letters and digits. `.` is any character but a newline, as in Python.
- `FeedbackLoop` as a mutable object: the model returns a new loop value from `AddAttempt`. The other operations read the loop and return no new loop, so they cannot change it.
- The CLI entry point, `config.py`, `logger.py` and the client and tool stubs are not modelled.

## Notes on the source

- The repetition rule fires when **more than one** attempt is recorded (`len(...) > 1`, feedback_loop.py:91). A single earlier attempt never triggers the warning, although the warning text speaks of the same error repeating from one attempt to the next. The model follows the code.
- The `AssertionError: (.+)` pattern (feedback_loop.py:43) can never decide a classification: `AssertionError` is itself a `\w+Error` word, so the first pattern always matches at the same or an earlier position. The `assertion` branch is dead code. The classification is still `AssertionError` with the same message, through the first pattern (`Patterns.AssertionRuleNeverDecides`, `Patterns.AssertionTranscript`).
- A failed file listing (exit code not 0) does not stop reproduction or location. The text `Error getting file list` is passed to the model as the listing.
- The `/testbed/` prefix is removed with `replace`, which deletes every occurrence, including one inside a path (`Agent.InnerRootAlsoRemoved`).
