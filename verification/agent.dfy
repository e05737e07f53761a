/**
 * `Agent`: the Reproduce -> Locate -> Fix -> Verify pipeline of one issue.
 *
 * The collaborators are parameters. `World.run` stands for the sandbox's
 * command execution, `World.complete` for the language model, and `Tools`
 * for the extraction and validation helpers; each of the first two may raise
 * (`Threw`). The sandbox file system is a map from path to content, so a
 * command's result may depend on what the agent wrote before it. Each phase
 * returns the log of the calls it made; the run's trace is assembled from
 * those logs between the sandbox's start and its cleanup.
 */
module Agent {

  import opened Wrappers
  import opened Text

  type Files = map<string, string>

  const ReproScript := "reproduce_issue.py"
  const ScriptTimeout := 30
  const ReproduceListingSize := 100
  const LocateListingSize := 150
  const MaxModelTargets := 3
  const MaxFileChars := 32000
  const ListingHintChars := 1000
  const SandboxRoot := "/testbed/"
  const ListingError := "Error getting file list"
  const HintsHeader := "Repository files (sample):\n"

  datatype Issue = Issue(instanceId: string, problemStatement: string)

  /** Exit code and combined output of a sandbox command. */
  datatype Exec = Exec(exitCode: int, output: string)

  /** A collaborator call either returns a value or raises. */
  datatype Call<T> = Returned(value: T) | Threw

  /** The two commands the agent runs: the `find ... | head -n N | sort`
      listing of Python files, and `python <script>` with a timeout. */
  datatype Command = ListPythonFiles(maxFiles: nat) | RunScript(script: string, timeout: nat)

  const ScriptRun := RunScript(ReproScript, ScriptTimeout)

  /** What each prompt is built from; the prompt prose is not modelled. */
  datatype Request =
    | ReproduceRequest(issue: string, hints: string)
    | LocateRequest(issue: string, repoStructure: string)
    | FixRequest(issue: string, fileContent: string, filePath: string, errorTrace: string)

  /** `extract_python_code`, `validate_python_code(..)[0]`,
      `extract_file_paths` and `extract_error_messages`. */
  datatype Tools = Tools(
    extractCode: string -> string,
    isValid: string -> bool,
    extractPaths: string -> seq<string>,
    errorMessages: string -> seq<string>)

  datatype World = World(
    startThrows: bool,
    run: (Files, Command) -> Call<Exec>,
    complete: Request -> Call<string>,
    tools: Tools)

  /** One call a phase makes on the sandbox or the model. */
  datatype Op =
    | Ran(cmd: Command)
    | Asked(req: Request)
    | ReadFile(path: string, content: Option<string>)
    | WroteFile(path: string, code: string)

  /** The agent's fields and the sandbox files. */
  datatype State = State(files: Files, reproOutput: string, targetFiles: seq<string>)

  /** A phase's verdict (or the exception it raised), the state after it,
      and the calls it made, in order. */
  datatype Step = Step(outcome: Call<bool>, st: State, log: seq<Op>)

  /** The files after the writes in `log`, in order. */
  function ApplyWrites(files: Files, log: seq<Op>): Files
    decreases |log|
  {
    if log == [] then files
    else
      var before := ApplyWrites(files, log[..|log| - 1]);
      var op := log[|log| - 1];
      if op.WroteFile? then before[op.path := op.code] else before
  }

  lemma {:induction false} ApplyWritesAppend(files: Files, a: seq<Op>, b: seq<Op>)
    ensures ApplyWrites(files, a + b) == ApplyWrites(ApplyWrites(files, a), b)
    decreases |b|
  {
    if b == [] {
      assert a + b == a;
    } else {
      assert (a + b)[..|a + b| - 1] == a + b[..|b| - 1];
      ApplyWritesAppend(files, a, b[..|b| - 1]);
    }
  }

  /** Writing one file and then running a command, after a log that wrote
      nothing, leaves exactly that write. */
  lemma WriteThenRun(files: Files, pre: seq<Op>, log: seq<Op>, path: string, code: string)
    requires ApplyWrites(files, pre) == files
    requires |log| == |pre| + 2 && log[..|pre|] == pre
    requires log[|pre|] == WroteFile(path, code) && log[|pre| + 1].Ran?
    ensures ApplyWrites(files, log) == files[path := code]
  {
    assert log[..|log| - 1][..|pre|] == pre;
  }

  /** A log without writes leaves the files as they were. */
  lemma {:induction false} NoWritesKeepFiles(files: Files, log: seq<Op>)
    requires forall i :: 0 <= i < |log| ==> !log[i].WroteFile?
    ensures ApplyWrites(files, log) == files
    decreases |log|
  {
    if log != [] {
      NoWritesKeepFiles(files, log[..|log| - 1]);
    }
  }

  /** `sandbox.read_file`: `None` for a file that cannot be read. */
  function ReadSandbox(files: Files, path: string): Option<string> {
    if path in files then Some(files[path]) else None
  }

  // ---------------------------------------------------------------------
  // _get_file_tree
  // ---------------------------------------------------------------------

  /** The lines that are not blank, in order. */
  function NonBlank(lines: seq<string>): (r: seq<string>)
    ensures |r| <= |lines|
    ensures forall x :: x in r <==> x in lines && Strip(x) != []
    ensures |lines| == 1 ==> (r == lines <==> Strip(lines[0]) != [])
    decreases |lines|
  {
    if lines == [] then []
    else if Strip(lines[0]) != [] then [lines[0]] + NonBlank(lines[1..])
    else NonBlank(lines[1..])
  }

  /** The filter keeps order and multiplicity: filtering two runs of lines
      and concatenating gives the filter of their concatenation. */
  lemma {:induction false} NonBlankAppend(a: seq<string>, b: seq<string>)
    ensures NonBlank(a + b) == NonBlank(a) + NonBlank(b)
    decreases |a|
  {
    if a == [] {
      assert a + b == b;
    } else {
      assert (a + b)[0] == a[0] && (a + b)[1..] == a[1..] + b;
      NonBlankAppend(a[1..], b);
    }
  }

  /** Every line with each `/testbed/` occurrence removed. */
  function Relativize(lines: seq<string>): (r: seq<string>)
    ensures |r| == |lines|
    ensures forall k :: 0 <= k < |r| ==> r[k] == RemoveAll(lines[k], SandboxRoot)
    decreases |lines|
  {
    if lines == [] then [] else [RemoveAll(lines[0], SandboxRoot)] + Relativize(lines[1..])
  }

  /** The processed lines of a successful listing. */
  function ListingLines(output: string): (r: seq<string>)
    ensures forall k :: 0 <= k < |r| ==> '\n' !in r[k]
  {
    var lines := NonBlank(Split(Strip(output), '\n'));
    var r := Relativize(lines);
    assert forall k :: 0 <= k < |r| ==> '\n' !in r[k] by {
      forall k | 0 <= k < |r| ensures '\n' !in r[k] {
        assert lines[k] in lines;
        RemoveAllChars(lines[k], SandboxRoot);
      }
    }
    r
  }

  /** The text `_get_file_tree` returns for the listing command's result:
      read back line by line it gives exactly the processed lines, and a
      failed listing gives the fixed error text. */
  function FileTreeText(x: Exec): (t: string)
    ensures x.exitCode != 0 ==> t == ListingError
    ensures x.exitCode == 0 && ListingLines(x.output) != [] ==> Split(t, '\n') == ListingLines(x.output)
    ensures x.exitCode == 0 && ListingLines(x.output) == [] ==> t == []
  {
    if x.exitCode == 0 then
      var lines := ListingLines(x.output);
      if lines != [] then SplitJoin(lines, '\n'); Join(lines, "\n") else []
    else ListingError
  }

  /** `/testbed/` is removed wherever it occurs, not only as the leading
      root: in `/testbed/pkg/testbed/mod.py` a package directory named
      `testbed` vanishes too, giving `pkgmod.py`. */
  lemma InnerRootAlsoRemoved(dir: string, name: string)
    requires '/' !in dir && '/' !in name
    ensures RemoveAll(SandboxRoot + dir + SandboxRoot + name, SandboxRoot) == dir + name
  {
    var inner := SandboxRoot + name;
    calc {
      RemoveAll(SandboxRoot + dir + SandboxRoot + name, SandboxRoot);
    == { Regroup(SandboxRoot, dir, SandboxRoot, name); }
      RemoveAll(SandboxRoot + (dir + inner), SandboxRoot);
    == { RemoveAllDrops(SandboxRoot, dir + inner); }
      RemoveAll(dir + inner, SandboxRoot);
    == { RemoveAllKeepsAll(dir, inner, SandboxRoot); }
      dir + RemoveAll(inner, SandboxRoot);
    == { RemoveAllDrops(SandboxRoot, name); }
      dir + RemoveAll(name, SandboxRoot);
    == { RemoveAllKeepsAll(name, [], SandboxRoot); assert name + [] == name; }
      dir + name;
    }
  }

  /** `+` regrouped to the right. */
  lemma Regroup(a: string, b: string, c: string, d: string)
    ensures a + b + c + d == a + (b + (c + d))
  {
  }

  /** `_get_file_tree(max_files)` on the current sandbox files: it raises
      iff the listing command raises, and otherwise processes its result. */
  function FileTree(w: World, files: Files, maxFiles: nat): (r: Call<string>)
    ensures r.Threw? <==> w.run(files, ListPythonFiles(maxFiles)).Threw?
    ensures r.Returned? ==> r.value == FileTreeText(w.run(files, ListPythonFiles(maxFiles)).value)
  {
    match w.run(files, ListPythonFiles(maxFiles))
    case Threw => Threw
    case Returned(x) => Returned(FileTreeText(x))
  }

  /** The hints of the reproduction prompt: the first 1000 characters of
      the listing after a fixed header. */
  function ReproduceHints(listing: string): (h: string)
    ensures |HintsHeader| <= |h| <= |HintsHeader| + ListingHintChars
    ensures |h| == |HintsHeader| + (if |listing| < ListingHintChars then |listing| else ListingHintChars)
    ensures h[..|HintsHeader|] == HintsHeader
    ensures |h| - |HintsHeader| <= |listing|
    ensures h[|HintsHeader|..] == listing[..|h| - |HintsHeader|]
  {
    HintsHeader + Prefix(listing, ListingHintChars)
  }

  // ---------------------------------------------------------------------
  // _reproduce_bug
  // ---------------------------------------------------------------------

  /** The script reproduces the bug: non-zero exit, or error markers. */
  predicate Reproduced(tools: Tools, x: Exec) {
    x.exitCode != 0 || tools.errorMessages(x.output) != []
  }

  function ReproduceRequestFor(w: World, issue: Issue, files: Files): Request
    requires FileTree(w, files, ReproduceListingSize).Returned?
  {
    ReproduceRequest(issue.problemStatement, ReproduceHints(FileTree(w, files, ReproduceListingSize).value))
  }

  /** The 100-file listing `_reproduce_bug` takes first. */
  const Listed := Ran(ListPythonFiles(ReproduceListingSize))

  /** The promises of `_reproduce_bug` about its result `r`, started on
      state `st`: what it does, and what it concludes. */
  ghost predicate ReproduceContract(w: World, issue: Issue, st: State, r: Step) {
    && ReproduceCalls(w, issue, st, r) && ReproduceWrites(w, r) && ReproduceVerdict(w, st, r)
    && ReproduceFlow(w, issue, st, r)
  }

  /** The script `_reproduce_bug` writes: the code extracted from the
      model's answer, once the listing and the model have returned. */
  function ScriptFor(w: World, issue: Issue, files: Files): string
    requires FileTree(w, files, ReproduceListingSize).Returned?
    requires w.complete(ReproduceRequestFor(w, issue, files)).Returned?
  {
    w.tools.extractCode(w.complete(ReproduceRequestFor(w, issue, files)).value)
  }

  /** The phase stops unchanged when the listing or the model raises or the
      code does not validate; valid code is written and run; and the phase
      raises iff the listing, the model or the script run raised. */
  ghost predicate ReproduceFlow(w: World, issue: Issue, st: State, r: Step) {
    var listed := FileTree(w, st.files, ReproduceListingSize).Returned?;
    var answered := listed && w.complete(ReproduceRequestFor(w, issue, st.files)).Returned?;
    var valid := answered && w.tools.isValid(ScriptFor(w, issue, st.files));
    // a listing that raises ends the phase at once
    && (!listed ==> r == Step(Threw, st, [Listed]))
    // a model that raises, or code that does not validate, ends it after the question
    && (listed && !answered ==> r == Step(Threw, st, [Listed, Asked(ReproduceRequestFor(w, issue, st.files))]))
    && (answered && !valid ==>
          r == Step(Returned(false), st, [Listed, Asked(ReproduceRequestFor(w, issue, st.files))]))
    && (valid ==>
          r.log == [Listed, Asked(ReproduceRequestFor(w, issue, st.files)),
                    WroteFile(ReproScript, ScriptFor(w, issue, st.files)), Ran(ScriptRun)])
    && (r.outcome.Threw? <==>
          || !answered
          || (valid && w.run(st.files[ReproScript := ScriptFor(w, issue, st.files)], ScriptRun).Threw?))
  }

  /** The calls made before anything is written, and the files and targets
      after the phase. */
  ghost predicate ReproduceCalls(w: World, issue: Issue, st: State, r: Step) {
    && r.st.files == ApplyWrites(st.files, r.log)
    && r.st.targetFiles == st.targetFiles
    // the listing is taken first, and the model is asked with its first 1000 characters
    && r.log != [] && r.log[0] == Listed
    && (|r.log| >= 2 ==>
          FileTree(w, st.files, ReproduceListingSize).Returned? && r.log[1] == Asked(ReproduceRequestFor(w, issue, st.files)))
    // code that does not validate is neither written nor run
    && (|r.log| >= 2 && w.complete(r.log[1].req).Returned?
        && !w.tools.isValid(w.tools.extractCode(w.complete(r.log[1].req).value)) ==>
          r.outcome == Returned(false) && |r.log| == 2)
  }

  /** The discipline of the sandbox writes and script runs in the log. */
  ghost predicate ReproduceWrites(w: World, r: Step) {
    // the only file written is the script, and only with code that validated
    && (forall i :: 0 <= i < |r.log| && r.log[i].WroteFile? ==>
          r.log[i].path == ReproScript && w.tools.isValid(r.log[i].code))
    // the script runs only right after it was written
    && (forall i :: 0 <= i < |r.log| && r.log[i] == Ran(ScriptRun) ==>
          i > 0 && r.log[i - 1].WroteFile? && r.log[i - 1].path == ReproScript)
  }

  /** The phase's verdict and the transcript it keeps. */
  ghost predicate ReproduceVerdict(w: World, st: State, r: Step) {
    && r.log != []
    // reproduced iff the script ran and exited non-zero or printed error markers
    && (r.outcome == Returned(true) <==>
          && r.log[|r.log| - 1] == Ran(ScriptRun)
          && w.run(r.st.files, ScriptRun).Returned?
          && Reproduced(w.tools, w.run(r.st.files, ScriptRun).value))
    // the transcript is kept only when the bug was reproduced
    && (r.outcome == Returned(true) ==> r.st.reproOutput == w.run(r.st.files, ScriptRun).value.output)
    && (r.outcome != Returned(true) ==> r.st.reproOutput == st.reproOutput)
  }

  /** The tail of `_reproduce_bug` once the script validated: write it,
      run it, and judge the run. */
  function RunReproScript(w: World, st: State, asked: seq<Op>, code: string): (r: Step)
    requires ApplyWrites(st.files, asked) == st.files
    ensures r.log == asked + [WroteFile(ReproScript, code), Ran(ScriptRun)]
    ensures r.st.files == st.files[ReproScript := code] == ApplyWrites(st.files, r.log)
    ensures r.st.targetFiles == st.targetFiles
    ensures r.outcome.Threw? <==> w.run(r.st.files, ScriptRun).Threw?
    ensures r.outcome == Returned(true) <==>
      w.run(r.st.files, ScriptRun).Returned? && Reproduced(w.tools, w.run(r.st.files, ScriptRun).value)
    ensures r.outcome == Returned(true) ==> r.st.reproOutput == w.run(r.st.files, ScriptRun).value.output
    ensures r.outcome != Returned(true) ==> r.st.reproOutput == st.reproOutput
  {
    var log := asked + [WroteFile(ReproScript, code), Ran(ScriptRun)];
    var written := st.(files := st.files[ReproScript := code]);
    WriteThenRun(st.files, asked, log, ReproScript, code);
    match w.run(written.files, ScriptRun)
    case Threw => Step(Threw, written, log)
    case Returned(x) =>
      if Reproduced(w.tools, x) then Step(Returned(true), written.(reproOutput := x.output), log)
      else Step(Returned(false), written, log)
  }

  /** `_reproduce_bug`. */
  function ReproduceBug(w: World, issue: Issue, st: State): (r: Step)
    ensures ReproduceContract(w, issue, st, r)
  {
    match FileTree(w, st.files, ReproduceListingSize)
    case Threw =>
      ListingRaised(w, issue, st);
      Step(Threw, st, [Listed])
    case Returned(listing) =>
      var req := ReproduceRequestFor(w, issue, st.files);
      match w.complete(req)
      case Threw =>
        StoppedAfterAsking(w, issue, st, Threw);
        Step(Threw, st, [Listed, Asked(req)])
      case Returned(response) =>
        var code := w.tools.extractCode(response);
        if !w.tools.isValid(code) then
          StoppedAfterAsking(w, issue, st, Returned(false));
          Step(Returned(false), st, [Listed, Asked(req)])
        else
          ScriptWrittenAndRun(w, issue, st, code);
          ScriptDiscipline(w, st, req, code);
          ScriptJudged(w, st, [Listed, Asked(req)], code);
          ScriptFlow(w, issue, st, code);
          RunReproScript(w, st, [Listed, Asked(req)], code)
  }

  /** A listing that raises ends the phase after the listing alone. */
  lemma ListingRaised(w: World, issue: Issue, st: State)
    requires FileTree(w, st.files, ReproduceListingSize).Threw?
    ensures ReproduceContract(w, issue, st, Step(Threw, st, [Listed]))
  {
    NoWritesKeepFiles(st.files, [Listed]);
  }

  /** A model call that raises, or an answer whose code does not validate,
      ends the phase after the listing and the question. */
  lemma StoppedAfterAsking(w: World, issue: Issue, st: State, outcome: Call<bool>)
    requires FileTree(w, st.files, ReproduceListingSize).Returned?
    requires var answer := w.complete(ReproduceRequestFor(w, issue, st.files));
      || (outcome == Threw && answer.Threw?)
      || (outcome == Returned(false) && answer.Returned? && !w.tools.isValid(w.tools.extractCode(answer.value)))
    ensures ReproduceContract(w, issue, st, Step(outcome, st, [Listed, Asked(ReproduceRequestFor(w, issue, st.files))]))
  {
    NoWritesKeepFiles(st.files, [Listed, Asked(ReproduceRequestFor(w, issue, st.files))]);
  }

  /** Validated code is written as the script and then run. */
  lemma ScriptWrittenAndRun(w: World, issue: Issue, st: State, code: string)
    requires FileTree(w, st.files, ReproduceListingSize).Returned?
    requires var answer := w.complete(ReproduceRequestFor(w, issue, st.files));
      answer.Returned? && code == w.tools.extractCode(answer.value) && w.tools.isValid(code)
    ensures var asked := [Listed, Asked(ReproduceRequestFor(w, issue, st.files))];
      ApplyWrites(st.files, asked) == st.files
      && ReproduceCalls(w, issue, st, RunReproScript(w, st, asked, code))
  {
    var asked := [Listed, Asked(ReproduceRequestFor(w, issue, st.files))];
    NoWritesKeepFiles(st.files, asked);
    var r := RunReproScript(w, st, asked, code);
    assert r.log[..2] == asked;
  }

  /** The script is the one file written, with validated code, and it runs
      right after being written. */
  lemma ScriptDiscipline(w: World, st: State, req: Request, code: string)
    requires w.tools.isValid(code)
    requires ApplyWrites(st.files, [Listed, Asked(req)]) == st.files
    ensures ReproduceWrites(w, RunReproScript(w, st, [Listed, Asked(req)], code))
  {
    var r := RunReproScript(w, st, [Listed, Asked(req)], code);
    assert r.log == [Listed, Asked(req), WroteFile(ReproScript, code), Ran(ScriptRun)];
  }

  /** Validated code is written and run, and the phase raises iff the run
      raises. */
  lemma ScriptFlow(w: World, issue: Issue, st: State, code: string)
    requires FileTree(w, st.files, ReproduceListingSize).Returned?
    requires var answer := w.complete(ReproduceRequestFor(w, issue, st.files));
      answer.Returned? && code == w.tools.extractCode(answer.value) && w.tools.isValid(code)
    ensures var asked := [Listed, Asked(ReproduceRequestFor(w, issue, st.files))];
      ApplyWrites(st.files, asked) == st.files
      && ReproduceFlow(w, issue, st, RunReproScript(w, st, asked, code))
  {
    NoWritesKeepFiles(st.files, [Listed, Asked(ReproduceRequestFor(w, issue, st.files))]);
  }

  /** The verdict after the script ran is the judgement of that run. */
  lemma ScriptJudged(w: World, st: State, asked: seq<Op>, code: string)
    requires ApplyWrites(st.files, asked) == st.files
    ensures ReproduceVerdict(w, st, RunReproScript(w, st, asked, code))
  {
    var r := RunReproScript(w, st, asked, code);
    assert r.log[|r.log| - 1] == Ran(ScriptRun);
  }

  // ---------------------------------------------------------------------
  // _locate_files
  // ---------------------------------------------------------------------

  function LocateRequestFor(w: World, issue: Issue, files: Files): Request
    requires FileTree(w, files, LocateListingSize).Returned?
  {
    LocateRequest(issue.problemStatement, FileTree(w, files, LocateListingSize).value)
  }

  function LocateFiles(w: World, issue: Issue, st: State): (r: Step)
    ensures r.st.files == st.files && r.st.reproOutput == st.reproOutput
    ensures forall i :: 0 <= i < |r.log| ==> !r.log[i].WroteFile?
    // paths named in the issue are taken whole, without asking the model
    ensures w.tools.extractPaths(issue.problemStatement) != [] ==>
      && r.outcome == Returned(true)
      && r.st.targetFiles == w.tools.extractPaths(issue.problemStatement)
      && r.log == []
    // otherwise the model is shown a listing of 150 files, and its answer decides
    ensures w.tools.extractPaths(issue.problemStatement) == [] ==>
      && r.log != [] && r.log[0] == Ran(ListPythonFiles(LocateListingSize))
      && (|r.log| >= 2 ==>
            FileTree(w, st.files, LocateListingSize).Returned? && r.log[1] == Asked(LocateRequestFor(w, issue, st.files)))
      && (r.outcome.Returned? <==> |r.log| == 2 && w.complete(r.log[1].req).Returned?)
    // the phase raises iff the listing or the model raised, and the model is asked iff the listing returned
    ensures w.tools.extractPaths(issue.problemStatement) == [] ==>
      && (FileTree(w, st.files, LocateListingSize).Returned? <==> |r.log| == 2)
      && (r.outcome.Threw? <==>
            || FileTree(w, st.files, LocateListingSize).Threw?
            || w.complete(LocateRequestFor(w, issue, st.files)).Threw?)
    // at most three of the model's paths are kept
    ensures w.tools.extractPaths(issue.problemStatement) == [] && r.outcome.Returned? ==>
      var found := w.tools.extractPaths(w.complete(r.log[1].req).value);
      && (r.outcome.value <==> found != [])
      && (found != [] ==>
            && |r.st.targetFiles| == (if |found| < MaxModelTargets then |found| else MaxModelTargets)
            && r.st.targetFiles == found[..|r.st.targetFiles|])
    ensures r.outcome == Returned(true) ==> r.st.targetFiles != []
    ensures r.outcome != Returned(true) ==> r.st.targetFiles == st.targetFiles
  {
    var hinted := w.tools.extractPaths(issue.problemStatement);
    if hinted != [] then Step(Returned(true), st.(targetFiles := hinted), [])
    else
      var log0 := [Ran(ListPythonFiles(LocateListingSize))];
      match FileTree(w, st.files, LocateListingSize)
      case Threw => Step(Threw, st, log0)
      case Returned(listing) =>
        var req := LocateRequestFor(w, issue, st.files);
        var log1 := log0 + [Asked(req)];
        match w.complete(req)
        case Threw => Step(Threw, st, log1)
        case Returned(response) =>
          var found := w.tools.extractPaths(response);
          if found != [] then Step(Returned(true), st.(targetFiles := Prefix(found, MaxModelTargets)), log1)
          else Step(Returned(false), st, log1)
  }

  /** Locating never changes the sandbox: its log holds no write. */
  lemma LocateKeepsFiles(w: World, issue: Issue, st: State)
    ensures LocateFiles(w, issue, st).st.files == ApplyWrites(st.files, LocateFiles(w, issue, st).log)
  {
    NoWritesKeepFiles(st.files, LocateFiles(w, issue, st).log);
  }

  // ---------------------------------------------------------------------
  // _generate_fix
  // ---------------------------------------------------------------------

  /** What happened to one target: what `read_file` returned, the model's
      answer if it was asked, and the code written, if any. */
  datatype Visit = Visit(path: string, content: Option<string>, answer: Option<Call<string>>, written: Option<string>)

  datatype FixResult = FixResult(outcome: Call<bool>, st: State, visits: seq<Visit>)

  /** The file was read, is non-empty and within the size limit. */
  predicate Fixable(content: Option<string>) {
    content.Some? && content.value != [] && |content.value| <= MaxFileChars
  }

  /** A proposed replacement is used only if it is non-empty, validates,
      and differs from the original once both are stripped. */
  predicate AcceptsFix(tools: Tools, original: string, code: string) {
    code != [] && tools.isValid(code) && Strip(code) != Strip(original)
  }

  function ApplyVisit(files: Files, v: Visit): Files {
    if v.written.Some? then files[v.path := v.written.value] else files
  }

  /** The files after the writes of `visits`, in order. */
  function ApplyVisits(files: Files, visits: seq<Visit>): Files
    decreases |visits|
  {
    if visits == [] then files else ApplyVisits(ApplyVisit(files, visits[0]), visits[1..])
  }

  function FixRequestFor(issue: Issue, reproOutput: string, v: Visit): Request
    requires v.content.Some?
  {
    FixRequest(issue.problemStatement, v.content.value, v.path, reproOutput)
  }

  /** Visit `v` did what the loop body of `_generate_fix` does with its
      target, given the files as they were when it was read. */
  ghost predicate VisitFaithful(w: World, issue: Issue, reproOutput: string, files: Files, v: Visit) {
    && v.content == ReadSandbox(files, v.path)
    && (v.answer.Some? <==> Fixable(v.content))
    && (v.answer.Some? ==> v.answer.value == w.complete(FixRequestFor(issue, reproOutput, v)))
    && (v.written.Some? <==>
          (v.answer.Some? && v.answer.value.Returned?
           && AcceptsFix(w.tools, v.content.value, w.tools.extractCode(v.answer.value.value))))
    && (v.written.Some? ==> v.written.value == w.tools.extractCode(v.answer.value.value))
  }

  /** Targets are visited in order, and a skipped target does not stop
      the loop: only a model call that raises does, and it raises the phase. */
  ghost predicate VisitsInOrder(targets: seq<string>, outcome: Call<bool>, visits: seq<Visit>) {
    && |visits| <= |targets|
    && (forall k :: 0 <= k < |visits| ==> visits[k].path == targets[k])
    && (forall k :: 0 <= k < |visits| - 1 ==> visits[k].answer != Some(Threw))
    && (outcome.Threw? <==> |visits| > 0 && visits[|visits| - 1].answer == Some(Threw))
    && (outcome.Returned? ==> |visits| == |targets|)
  }

  /** Each visit reads, asks and writes as the loop body does, on the files
      the earlier visits left. */
  ghost predicate VisitsFaithful(w: World, issue: Issue, reproOutput: string, files: Files, visits: seq<Visit>) {
    forall k :: 0 <= k < |visits| ==> VisitFaithful(w, issue, reproOutput, ApplyVisits(files, visits[..k]), visits[k])
  }

  /** Some visit wrote its file. */
  predicate AnyWritten(visits: seq<Visit>) {
    exists k :: 0 <= k < |visits| && visits[k].written.Some?
  }

  /** The contract of the loop over `targets`, for its result `r`. */
  ghost predicate FixLoop(w: World, issue: Issue, st: State, targets: seq<string>, fixedAny: bool, r: FixResult) {
    && r.st.reproOutput == st.reproOutput && r.st.targetFiles == st.targetFiles
    && VisitsInOrder(targets, r.outcome, r.visits)
    && VisitsFaithful(w, issue, st.reproOutput, st.files, r.visits)
    && r.st.files == ApplyVisits(st.files, r.visits)
    // the phase succeeds iff some file was written
    && (r.outcome.Returned? ==> (r.outcome.value <==> fixedAny || AnyWritten(r.visits)))
  }

  /** The loop over the remaining `targets`; `fixedAny` says whether an
      earlier target was written. */
  function FixTargets(w: World, issue: Issue, st: State, targets: seq<string>, fixedAny: bool): (r: FixResult)
    ensures FixLoop(w, issue, st, targets, fixedAny, r)
    decreases |targets|
  {
    if targets == [] then FixResult(Returned(fixedAny), st, [])
    else
      var path := targets[0];
      var content := ReadSandbox(st.files, path);
      if !Fixable(content) then
        var v := Visit(path, content, None, None);
        var rest := FixTargets(w, issue, st, targets[1..], fixedAny);
        FixVisited(w, issue, st, targets, fixedAny, v, rest);
        FixResult(rest.outcome, rest.st, [v] + rest.visits)
      else
        var req := FixRequest(issue.problemStatement, content.value, path, st.reproOutput);
        match w.complete(req)
        case Threw =>
          var v := Visit(path, content, Some(Threw), None);
          FixRaised(w, issue, st, targets, fixedAny, v);
          FixResult(Threw, st, [v])
        case Returned(response) =>
          var code := w.tools.extractCode(response);
          if AcceptsFix(w.tools, content.value, code) then
            var v := Visit(path, content, Some(Returned(response)), Some(code));
            var rest := FixTargets(w, issue, st.(files := st.files[path := code]), targets[1..], true);
            FixVisited(w, issue, st, targets, fixedAny, v, rest);
            FixResult(rest.outcome, rest.st, [v] + rest.visits)
          else
            var v := Visit(path, content, Some(Returned(response)), None);
            var rest := FixTargets(w, issue, st, targets[1..], fixedAny);
            FixVisited(w, issue, st, targets, fixedAny, v, rest);
            FixResult(rest.outcome, rest.st, [v] + rest.visits)
  }

  lemma VisitsInOrderCons(targets: seq<string>, outcome: Call<bool>, v: Visit, rest: seq<Visit>)
    requires targets != [] && v.path == targets[0] && v.answer != Some(Threw)
    requires VisitsInOrder(targets[1..], outcome, rest)
    ensures VisitsInOrder(targets, outcome, [v] + rest)
  {
    var vs := [v] + rest;
    forall k | 0 < k < |vs|
      ensures vs[k] == rest[k - 1]
    {
    }
  }

  lemma VisitsFaithfulCons(w: World, issue: Issue, reproOutput: string, files: Files, v: Visit, rest: seq<Visit>)
    requires VisitFaithful(w, issue, reproOutput, files, v)
    requires VisitsFaithful(w, issue, reproOutput, ApplyVisit(files, v), rest)
    ensures VisitsFaithful(w, issue, reproOutput, files, [v] + rest)
  {
    var vs := [v] + rest;
    forall k | 0 <= k < |vs|
      ensures VisitFaithful(w, issue, reproOutput, ApplyVisits(files, vs[..k]), vs[k])
    {
      if k == 0 {
        assert vs[..0] == [] && vs[0] == v;
      } else {
        var pre := vs[..k];
        assert pre != [] && pre[0] == v && pre[1..] == rest[..k - 1];
        assert ApplyVisits(files, pre) == ApplyVisits(ApplyVisit(files, v), rest[..k - 1]);
        assert vs[k] == rest[k - 1];
        assert VisitFaithful(w, issue, reproOutput, ApplyVisits(ApplyVisit(files, v), rest[..k - 1]), rest[k - 1]);
      }
    }
  }

  lemma AnyWrittenCons(v: Visit, rest: seq<Visit>)
    ensures AnyWritten([v] + rest) <==> v.written.Some? || AnyWritten(rest)
  {
    var vs := [v] + rest;
    if v.written.Some? {
      assert vs[0].written.Some?;
    }
    if AnyWritten(rest) {
      var k :| 0 <= k < |rest| && rest[k].written.Some?;
      assert vs[k + 1] == rest[k];
    }
    if AnyWritten(vs) && !v.written.Some? {
      var k :| 0 <= k < |vs| && vs[k].written.Some?;
      assert rest[k - 1] == vs[k];
    }
  }

  /** One visit that did not raise, followed by the rest of the loop,
      meets the loop's contract for the whole of `targets`. */
  lemma FixVisited(w: World, issue: Issue, st: State, targets: seq<string>, fixedAny: bool, v: Visit, rest: FixResult)
    requires targets != [] && v.path == targets[0] && v.answer != Some(Threw)
    requires VisitFaithful(w, issue, st.reproOutput, st.files, v)
    requires FixLoop(w, issue, st.(files := ApplyVisit(st.files, v)), targets[1..], fixedAny || v.written.Some?, rest)
    ensures FixLoop(w, issue, st, targets, fixedAny, FixResult(rest.outcome, rest.st, [v] + rest.visits))
  {
    VisitsInOrderCons(targets, rest.outcome, v, rest.visits);
    VisitsFaithfulCons(w, issue, st.reproOutput, st.files, v, rest.visits);
    AnyWrittenCons(v, rest.visits);
    assert ([v] + rest.visits)[1..] == rest.visits;
  }

  /** A visit whose model call raised ends the loop, and the phase raises. */
  lemma FixRaised(w: World, issue: Issue, st: State, targets: seq<string>, fixedAny: bool, v: Visit)
    requires targets != [] && v.path == targets[0] && v.answer == Some(Threw)
    requires VisitFaithful(w, issue, st.reproOutput, st.files, v)
    ensures FixLoop(w, issue, st, targets, fixedAny, FixResult(Threw, st, [v]))
  {
    assert [v][..0] == [];
  }

  /** `_generate_fix`: visits every target file of the agent. */
  function GenerateFix(w: World, issue: Issue, st: State): (r: FixResult)
    ensures FixLoop(w, issue, st, st.targetFiles, false, r)
  {
    FixTargets(w, issue, st, st.targetFiles, false)
  }

  /** The calls of one visit: the read, the model call, the write. */
  function VisitOps(issue: Issue, reproOutput: string, v: Visit): seq<Op> {
    [ReadFile(v.path, v.content)]
    + (if v.answer.Some? && v.content.Some? then [Asked(FixRequestFor(issue, reproOutput, v))] else [])
    + (if v.written.Some? then [WroteFile(v.path, v.written.value)] else [])
  }

  /** The Fix phase's log. */
  function FixLog(issue: Issue, reproOutput: string, visits: seq<Visit>): seq<Op>
    decreases |visits|
  {
    if visits == [] then [] else VisitOps(issue, reproOutput, visits[0]) + FixLog(issue, reproOutput, visits[1..])
  }

  /** The visits change the sandbox exactly as the writes in their log do. */
  lemma {:induction false} FixLogWrites(issue: Issue, reproOutput: string, files: Files, visits: seq<Visit>)
    ensures ApplyWrites(files, FixLog(issue, reproOutput, visits)) == ApplyVisits(files, visits)
    decreases |visits|
  {
    if visits != [] {
      var v := visits[0];
      var ops := VisitOps(issue, reproOutput, v);
      ApplyWritesAppend(files, ops, FixLog(issue, reproOutput, visits[1..]));
      assert ApplyWrites(files, ops) == ApplyVisit(files, v) by {
        var pre := ops[..1];
        assert pre == [ReadFile(v.path, v.content)] && pre[..0] == [];
        assert ApplyWrites(files, pre) == files;
        if v.answer.Some? && v.content.Some? {
          var ask := pre + [Asked(FixRequestFor(issue, reproOutput, v))];
          assert ask[..1] == pre;
          if v.written.Some? {
            assert ops == ask + [WroteFile(v.path, v.written.value)];
            assert ops[..|ops| - 1] == ask;
          } else {
            assert ops == ask;
          }
        } else if v.written.Some? {
          assert ops == pre + [WroteFile(v.path, v.written.value)];
          assert ops[..|ops| - 1] == pre;
        } else {
          assert ops == pre;
        }
      }
      FixLogWrites(issue, reproOutput, ApplyVisit(files, v), visits[1..]);
    }
  }

  /** A file over the size limit is skipped without asking the model, and
      the phase still succeeds when a later target is fixed. */
  lemma OversizedFileSkipped(w: World, issue: Issue, st: State, big: string, small: string)
    requires st.targetFiles == [big, small] && big != small
    requires big in st.files && |st.files[big]| > MaxFileChars
    requires small in st.files && Fixable(Some(st.files[small]))
    requires var answer := w.complete(FixRequest(issue.problemStatement, st.files[small], small, st.reproOutput));
      answer.Returned? && AcceptsFix(w.tools, st.files[small], w.tools.extractCode(answer.value))
    ensures GenerateFix(w, issue, st).outcome == Returned(true)
    ensures |GenerateFix(w, issue, st).visits| == 2
    ensures GenerateFix(w, issue, st).visits[0].answer.None? && GenerateFix(w, issue, st).visits[0].written.None?
    ensures GenerateFix(w, issue, st).visits[1].written.Some?
  {
    var r := GenerateFix(w, issue, st);
    assert r.visits[..0] == [];
    assert !Fixable(r.visits[0].content);
    assert ApplyVisits(st.files, r.visits[..1]) == st.files by {
      assert r.visits[..1][1..] == [];
    }
    assert r.visits[0].answer != Some(Threw);
  }

  // ---------------------------------------------------------------------
  // _verify_fix
  // ---------------------------------------------------------------------

  /** The fix is verified: zero exit and no error markers. */
  predicate Verified(tools: Tools, x: Exec) {
    x.exitCode == 0 && tools.errorMessages(x.output) == []
  }

  function VerifyFix(w: World, st: State): (r: Step)
    ensures r.log == [Ran(ScriptRun)]
    ensures r.st == st
    ensures r.outcome.Threw? <==> w.run(st.files, ScriptRun).Threw?
    ensures r.outcome == Returned(true) <==>
      w.run(st.files, ScriptRun).Returned? && Verified(w.tools, w.run(st.files, ScriptRun).value)
  {
    match w.run(st.files, ScriptRun)
    case Threw => Step(Threw, st, [Ran(ScriptRun)])
    case Returned(x) => Step(Returned(Verified(w.tools, x)), st, [Ran(ScriptRun)])
  }

  /** Verification accepts exactly the runs reproduction rejects: the same
      script output cannot count both as a reproduced bug and as a fix. */
  lemma VerifiedIffNotReproduced(tools: Tools, x: Exec)
    ensures Verified(tools, x) <==> !Reproduced(tools, x)
  {
  }

  // ---------------------------------------------------------------------
  // run
  // ---------------------------------------------------------------------

  const Pipeline := [Reproduce, Locate, Fix, Verify]

  datatype Phase = Setup | Reproduce | Locate | Fix | Verify | Teardown

  function Rank(p: Phase): nat {
    match p
    case Setup => 0
    case Reproduce => 1
    case Locate => 2
    case Fix => 3
    case Verify => 4
    case Teardown => 5
  }

  datatype Action = StartSandbox | Did(op: Op) | CleanedUp

  datatype Event = Event(phase: Phase, action: Action)

  /** The overall result, the verdict and the log of each phase that was
      entered (in pipeline order), and the final state. */
  datatype RunResult = RunResult(success: bool, verdicts: seq<Call<bool>>, logs: seq<seq<Op>>, st: State)

  function Flatten(logs: seq<seq<Op>>): seq<Op>
    decreases |logs|
  {
    if logs == [] then [] else logs[0] + Flatten(logs[1..])
  }

  function Tag(p: Phase, ops: seq<Op>): (t: seq<Event>)
    ensures |t| == |ops|
    ensures forall i :: 0 <= i < |t| ==> t[i] == Event(p, Did(ops[i]))
  {
    seq(|ops|, i requires 0 <= i < |ops| => Event(p, Did(ops[i])))
  }

  /** The events of the phases from the `k`-th on. */
  function Tagged(logs: seq<seq<Op>>, k: nat): seq<Event>
    requires k + |logs| <= |Pipeline|
    decreases |logs|
  {
    if logs == [] then [] else Tag(Pipeline[k], logs[0]) + Tagged(logs[1..], k + 1)
  }

  /** The run's trace: start, the phases' calls, cleanup. */
  function Trace(r: RunResult): seq<Event>
    requires |r.logs| <= |Pipeline|
  {
    [Event(Setup, StartSandbox)] + Tagged(r.logs, 0) + [Event(Teardown, CleanedUp)]
  }

  lemma {:induction false} TaggedOrdered(logs: seq<seq<Op>>, k: nat)
    requires k + |logs| <= |Pipeline|
    ensures forall i :: 0 <= i < |Tagged(logs, k)| ==>
      Tagged(logs, k)[i].action.Did? && k < Rank(Tagged(logs, k)[i].phase) <= k + |logs|
    ensures forall i, j :: 0 <= i <= j < |Tagged(logs, k)| ==>
      Rank(Tagged(logs, k)[i].phase) <= Rank(Tagged(logs, k)[j].phase)
    decreases |logs|
  {
    if logs != [] {
      TaggedOrdered(logs[1..], k + 1);
      var head := Tag(Pipeline[k], logs[0]);
      var rest := Tagged(logs[1..], k + 1);
      assert Rank(Pipeline[k]) == k + 1;
      assert forall i :: 0 <= i < |head| ==> head[i].phase == Pipeline[k];
      var t := head + rest;
      assert t == Tagged(logs, k);
      forall i | 0 <= i < |t|
        ensures t[i].action.Did? && k < Rank(t[i].phase) <= k + |logs|
      {
        if i < |head| {
          assert t[i] == head[i];
        } else {
          assert t[i] == rest[i - |head|];
        }
      }
      forall i, j | 0 <= i <= j < |t|
        ensures Rank(t[i].phase) <= Rank(t[j].phase)
      {
        if i < |head| {
          assert t[i] == head[i];
        } else {
          assert t[i] == rest[i - |head|];
        }
        if j < |head| {
          assert t[j] == head[j];
        } else {
          assert t[j] == rest[j - |head|];
        }
      }
    }
  }

  /** The Fix phase as a step: its log is the calls of its visits. */
  function FixStep(w: World, issue: Issue, st: State): (s: Step)
    ensures s.st.files == ApplyWrites(st.files, s.log)
  {
    var f := GenerateFix(w, issue, st);
    FixLogWrites(issue, st.reproOutput, st.files, f.visits);
    Step(f.outcome, f.st, FixLog(issue, st.reproOutput, f.visits))
  }

  /** Phase `k` of `Pipeline`, started on `st` (every `k` from 3 on is
      Verify). */
  function PhaseStep(w: World, issue: Issue, k: nat, st: State): (s: Step)
    ensures s.st.files == ApplyWrites(st.files, s.log)
  {
    if k == 0 then ReproduceBug(w, issue, st)
    else if k == 1 then (LocateKeepsFiles(w, issue, st); LocateFiles(w, issue, st))
    else if k == 2 then FixStep(w, issue, st)
    else (NoWritesKeepFiles(st.files, [Ran(ScriptRun)]); VerifyFix(w, st))
  }

  /** Every phase changes the files only through the writes it logs. */
  ghost predicate WritesLogged(phase: (nat, State) -> Step) {
    forall k: nat, st: State :: phase(k, st).st.files == ApplyWrites(st.files, phase(k, st).log)
  }

  /** `verdicts` and `logs` are those of `phase` run from phase `first` on,
      each phase on the state the previous one left, starting on `st`;
      `final` is the state the last of them left. */
  ghost predicate Chain(phase: (nat, State) -> Step, first: nat, st: State,
                        verdicts: seq<Call<bool>>, logs: seq<seq<Op>>, final: State)
    decreases |verdicts|
  {
    && |verdicts| == |logs| >= 1
    && var s := phase(first, st);
    && s.outcome == verdicts[0] && s.log == logs[0]
    && if |verdicts| == 1 then s.st == final
       else Chain(phase, first + 1, s.st, verdicts[1..], logs[1..], final)
  }

  /** Between one and `n` phases entered, each exactly when the previous
      one returned true, and success iff all `n` returned true. */
  ghost predicate RestShape(r: RunResult, n: nat) {
    && 1 <= |r.verdicts| == |r.logs| <= n
    && (forall k :: 0 <= k < |r.verdicts| - 1 ==> r.verdicts[k] == Returned(true))
    && (|r.verdicts| < n ==> r.verdicts[|r.verdicts| - 1] != Returned(true))
    && (r.success <==> |r.verdicts| == n && r.verdicts[|r.verdicts| - 1] == Returned(true))
  }

  /** The contract of the pipeline from its phase `first` on, started on
      `st`, where `phase(k, st)` runs phase `k`; the files change only by
      the logged writes. */
  ghost predicate Rest(phase: (nat, State) -> Step, r: RunResult, first: nat, st: State) {
    && first < |Pipeline|
    && RestShape(r, |Pipeline| - first)
    && Chain(phase, first, st, r.verdicts, r.logs, r.st)
    && r.st.files == ApplyWrites(st.files, Flatten(r.logs))
  }

  /** `r` is the step `s` followed by `rest`. */
  predicate Prepended(r: RunResult, s: Step, rest: RunResult) {
    r == RunResult(rest.success, [s.outcome] + rest.verdicts, [s.log] + rest.logs, rest.st)
  }

  /** The pipeline ends with phase `first`: it did not return true, or no
      phase follows it. */
  function Last(phase: (nat, State) -> Step, first: nat, st: State): (r: RunResult)
    requires first < |Pipeline|
    requires phase(first, st).outcome != Returned(true) || first == |Pipeline| - 1
    requires phase(first, st).st.files == ApplyWrites(st.files, phase(first, st).log)
    ensures Rest(phase, r, first, st)
  {
    var s := phase(first, st);
    assert Flatten([s.log]) == s.log by {
      assert [s.log][1..] == [];
    }
    RunResult(s.outcome == Returned(true), [s.outcome], [s.log], s.st)
  }

  lemma PrependedShape(r: RunResult, s: Step, rest: RunResult, n: nat)
    requires Prepended(r, s, rest) && s.outcome == Returned(true) && RestShape(rest, n)
    ensures RestShape(r, n + 1)
  {
    assert forall k :: 0 < k < |r.verdicts| ==> r.verdicts[k] == rest.verdicts[k - 1];
  }

  lemma PrependedChain(phase: (nat, State) -> Step, r: RunResult, first: nat, st: State, rest: RunResult)
    requires Prepended(r, phase(first, st), rest)
    requires Chain(phase, first + 1, phase(first, st).st, rest.verdicts, rest.logs, rest.st)
    ensures Chain(phase, first, st, r.verdicts, r.logs, r.st)
  {
    assert r.verdicts[1..] == rest.verdicts && r.logs[1..] == rest.logs;
  }

  lemma PrependedFiles(r: RunResult, st: State, s: Step, rest: RunResult)
    requires Prepended(r, s, rest)
    requires s.st.files == ApplyWrites(st.files, s.log)
    requires rest.st.files == ApplyWrites(s.st.files, Flatten(rest.logs))
    ensures r.st.files == ApplyWrites(st.files, Flatten(r.logs))
  {
    assert Flatten(r.logs) == s.log + Flatten(rest.logs) by {
      assert r.logs[1..] == rest.logs;
    }
    ApplyWritesAppend(st.files, s.log, Flatten(rest.logs));
  }

  /** Phase `first` returned true, and the rest of the pipeline follows
      on the state it left. */
  function Then(phase: (nat, State) -> Step, first: nat, st: State, rest: RunResult): (r: RunResult)
    requires first + 1 < |Pipeline|
    requires phase(first, st).outcome == Returned(true)
    requires phase(first, st).st.files == ApplyWrites(st.files, phase(first, st).log)
    requires Rest(phase, rest, first + 1, phase(first, st).st)
    ensures Rest(phase, r, first, st)
  {
    var s := phase(first, st);
    var r := RunResult(rest.success, [s.outcome] + rest.verdicts, [s.log] + rest.logs, rest.st);
    PrependedShape(r, s, rest, |Pipeline| - (first + 1));
    PrependedChain(phase, r, first, st, rest);
    PrependedFiles(r, st, s, rest);
    r
  }

  /** The pipeline from its phase `first` on, started on `st`. */
  function From(phase: (nat, State) -> Step, first: nat, st: State): (r: RunResult)
    requires first < |Pipeline| && WritesLogged(phase)
    ensures Rest(phase, r, first, st)
    decreases |Pipeline| - first
  {
    var s := phase(first, st);
    if s.outcome != Returned(true) || first == |Pipeline| - 1 then Last(phase, first, st)
    else Then(phase, first, st, From(phase, first + 1, s.st))
  }

  /** The phases of the agent's pipeline on `issue`. */
  function Phases(w: World, issue: Issue): (nat, State) -> Step {
    (k: nat, st: State) => PhaseStep(w, issue, k, st)
  }

  /** The pipeline of `phase`s on a sandbox holding `files`, unless starting
      the sandbox throws. */
  function RunPhases(phase: (nat, State) -> Step, startThrows: bool, files: Files): (r: RunResult)
    requires WritesLogged(phase)
    ensures |r.verdicts| == |r.logs| <= |Pipeline|
    ensures r.verdicts == [] <==> startThrows
    ensures !startThrows ==> Chain(phase, 0, State(files, "", []), r.verdicts, r.logs, r.st)
    ensures forall k :: 0 <= k < |r.verdicts| - 1 ==> r.verdicts[k] == Returned(true)
    ensures 0 < |r.verdicts| < |Pipeline| ==> r.verdicts[|r.verdicts| - 1] != Returned(true)
    ensures r.success <==> |r.verdicts| == 4 && r.verdicts[3] == Returned(true)
    ensures r.st.files == ApplyWrites(files, Flatten(r.logs))
  {
    var st := State(files, "", []);
    if startThrows then RunResult(false, [], [], st) else From(phase, 0, st)
  }

  /** `Agent(issue).run()` on a sandbox holding `files`. */
  function Run(w: World, issue: Issue, files: Files): (r: RunResult)
    ensures |r.verdicts| == |r.logs| <= |Pipeline|
    ensures r.verdicts == [] <==> w.startThrows
    // the phases run on a fresh agent, each on the state the previous one left
    ensures !w.startThrows ==> Chain(Phases(w, issue), 0, State(files, "", []), r.verdicts, r.logs, r.st)
    // a phase is entered iff every earlier phase returned true: the run
    // stops early only after a phase that did not
    ensures forall k :: 0 <= k < |r.verdicts| - 1 ==> r.verdicts[k] == Returned(true)
    ensures 0 < |r.verdicts| < |Pipeline| ==> r.verdicts[|r.verdicts| - 1] != Returned(true)
    // success iff all four phases returned true; an exception in any means failure
    ensures r.success <==> |r.verdicts| == 4 && r.verdicts[3] == Returned(true)
    ensures (exists k :: 0 <= k < |r.verdicts| && r.verdicts[k].Threw?) ==> !r.success
    // the sandbox changes only through the logged writes
    ensures r.st.files == ApplyWrites(files, Flatten(r.logs))
  {
    PhasesLogWrites(w, issue);
    RunPhases(Phases(w, issue), w.startThrows, files)
  }

  /** The four phases of a run on `files` if each were entered:
      reproduction, then localisation on the state it left, then the fix,
      then verification. */
  function Stages(w: World, issue: Issue, files: Files): (steps: seq<Step>)
    ensures |steps| == 4
  {
    var s0 := ReproduceBug(w, issue, State(files, "", []));
    var s1 := LocateFiles(w, issue, s0.st);
    var s2 := FixStep(w, issue, s1.st);
    [s0, s1, s2, VerifyFix(w, s2.st)]
  }

  /** Each stage is the pipeline's phase of that number, run on the state
      the previous stage left. */
  lemma StagesArePhases(w: World, issue: Issue, files: Files)
    ensures var steps := Stages(w, issue, files);
            && steps[0] == Phases(w, issue)(0, State(files, "", []))
            && steps[1] == Phases(w, issue)(1, steps[0].st)
            && steps[2] == Phases(w, issue)(2, steps[1].st)
            && steps[3] == Phases(w, issue)(3, steps[2].st)
  {
  }

  /** The verdict and the log of each phase of the run are those of the
      stage of that number: the run is the stages in order, cut off after
      the first that does not return true. */
  lemma RunInOrder(w: World, issue: Issue, files: Files)
    requires !w.startThrows
    ensures var r := Run(w, issue, files);
            forall k :: 0 <= k < |r.verdicts| ==>
              r.verdicts[k] == Stages(w, issue, files)[k].outcome && r.logs[k] == Stages(w, issue, files)[k].log
  {
    var r := Run(w, issue, files);
    StagesArePhases(w, issue, files);
    ChainInOrder(Phases(w, issue), State(files, "", []), r.verdicts, r.logs, r.st, Stages(w, issue, files));
  }

  /** The final state of the run is the one its last entered stage left. */
  lemma RunEndsInOrder(w: World, issue: Issue, files: Files)
    requires !w.startThrows
    ensures var r := Run(w, issue, files);
            1 <= |r.verdicts| <= 4 && r.st == Stages(w, issue, files)[|r.verdicts| - 1].st
  {
    var r := Run(w, issue, files);
    StagesArePhases(w, issue, files);
    ChainEnds(Phases(w, issue), State(files, "", []), r.verdicts, r.logs, r.st, Stages(w, issue, files));
  }

  lemma ChainEnds(phase: (nat, State) -> Step, st0: State, v: seq<Call<bool>>, l: seq<seq<Op>>,
                  final: State, steps: seq<Step>)
    requires Chain(phase, 0, st0, v, l, final) && |v| <= 4 && |steps| == 4
    requires steps[0] == phase(0, st0) && steps[1] == phase(1, steps[0].st)
    requires steps[2] == phase(2, steps[1].st) && steps[3] == phase(3, steps[2].st)
    ensures 1 <= |v| && final == steps[|v| - 1].st
  {
    ChainInOrder(phase, st0, v, l, final, steps);
  }

  /** A chain of at most four phases from phase 0 consists of the steps
      `steps`, each run on the state the previous one left. */
  lemma {:induction false} ChainInOrder(phase: (nat, State) -> Step, st0: State, v: seq<Call<bool>>, l: seq<seq<Op>>,
                                        final: State, steps: seq<Step>)
    requires Chain(phase, 0, st0, v, l, final) && |v| <= 4 && |steps| == 4
    requires steps[0] == phase(0, st0) && steps[1] == phase(1, steps[0].st)
    requires steps[2] == phase(2, steps[1].st) && steps[3] == phase(3, steps[2].st)
    ensures 1 <= |v| && final == steps[|v| - 1].st
    ensures forall k :: 0 <= k < |v| ==> v[k] == steps[k].outcome && l[k] == steps[k].log
  {
    if |v| > 1 {
      assert Chain(phase, 1, steps[0].st, v[1..], l[1..], final);
      if |v| > 2 {
        assert Chain(phase, 2, steps[1].st, v[2..], l[2..], final) by {
          assert v[1..][1..] == v[2..] && l[1..][1..] == l[2..];
        }
        if |v| > 3 {
          assert Chain(phase, 3, steps[2].st, v[3..], l[3..], final) by {
            assert v[2..][1..] == v[3..] && l[2..][1..] == l[3..];
          }
        }
      }
    }
  }

  lemma PhasesLogWrites(w: World, issue: Issue)
    ensures WritesLogged(Phases(w, issue))
  {
    forall k: nat, st: State
      ensures Phases(w, issue)(k, st).st.files == ApplyWrites(st.files, Phases(w, issue)(k, st).log)
    {
      var s := PhaseStep(w, issue, k, st);
    }
  }

  /** The sandbox is started first and cleaned up last, once each; the
      phases' calls come in pipeline order, and only phases that have a
      log, that is only phases that were entered, appear. */
  lemma TraceShape(r: RunResult)
    requires |r.logs| <= |Pipeline|
    ensures |Trace(r)| >= 2
    ensures Trace(r)[0] == Event(Setup, StartSandbox)
    ensures Trace(r)[|Trace(r)| - 1] == Event(Teardown, CleanedUp)
    ensures forall i :: 0 < i < |Trace(r)| - 1 ==> Trace(r)[i].action.Did?
    ensures forall i, j :: 0 <= i <= j < |Trace(r)| ==> Rank(Trace(r)[i].phase) <= Rank(Trace(r)[j].phase)
    ensures forall i :: 0 < i < |Trace(r)| - 1 ==> Rank(Trace(r)[i].phase) <= |r.logs|
  {
    var mid := Tagged(r.logs, 0);
    TaggedOrdered(r.logs, 0);
    var t := Trace(r);
    forall i | 0 < i < |t| - 1
      ensures t[i] == mid[i - 1]
    {
    }
    forall i, j | 0 <= i <= j < |t|
      ensures Rank(t[i].phase) <= Rank(t[j].phase)
    {
      if 0 < i && j < |t| - 1 {
        assert t[i] == mid[i - 1] && t[j] == mid[j - 1];
      } else if 0 < i < |t| - 1 {
        assert t[i] == mid[i - 1];
      } else if 0 < j < |t| - 1 {
        assert t[j] == mid[j - 1];
      }
    }
  }
}
