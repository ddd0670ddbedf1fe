/**
  The two execution strategies, reduced to their deterministic parts: the
  configuration checks made before a task exists, the knot-cli argument vector,
  the artifact file name, the stderr filter of the local run, the outcome of a
  local run, and the per-poll decision of the remote run.
*/
module Execution {
  import opened Wrappers
  import opened GoStrings
  import opened Tasks

  /** The plugin configuration (`Config`); `mode` is a free string, as in the plugin. */
  datatype Config = Config(
    mode: Bytes,
    knotCliPath: Bytes,
    workspacePath: Bytes,
    systemPromptPath: Bytes,
    proxyUrl: Bytes,
    sharedDataPath: Bytes,
    maxConcurrent: int,
    timeout: int)

  const DirectMode: Bytes := Ascii("direct")
  const ProxyMode: Bytes := Ascii("proxy")

  /** The remote strategy runs exactly when the mode is "proxy"; every other mode runs knot-cli locally. */
  predicate UsesProxy(cfg: Config) {
    cfg.mode == ProxyMode
  }

  // ---------------------------------------------------------------------------
  // Request validation (handleAnalyze)

  datatype Rejection = NoLogContent | WorkspaceNotSet | ProxyUrlNotSet

  /**
    The checks made before a task is created: no arguments at all; direct mode
    without a workspace; proxy mode without a proxy URL. A request that passes
    yields its log text: the arguments joined with single spaces.
  */
  function Validate(cfg: Config, args: seq<Bytes>): (r: Result<Bytes, Rejection>)
    ensures r == Failure(NoLogContent) <==> args == []
    ensures r == Failure(WorkspaceNotSet) <==>
              args != [] && cfg.mode == DirectMode && cfg.workspacePath == []
    ensures r == Failure(ProxyUrlNotSet) <==>
              args != [] && cfg.mode == ProxyMode && cfg.proxyUrl == []
    ensures r.Success? ==> r.value == Join(args, Space)
  {
    assert |DirectMode| != |ProxyMode|;
    if args == [] then Failure(NoLogContent)
    else if cfg.mode == DirectMode && cfg.workspacePath == [] then Failure(WorkspaceNotSet)
    else if cfg.mode == ProxyMode && cfg.proxyUrl == [] then Failure(ProxyUrlNotSet)
    else Success(Join(args, Space))
  }

  /** When no argument contains a space, the accepted log text splits back into the arguments. */
  lemma LogTextSplitsBack(cfg: Config, args: seq<Bytes>)
    requires Validate(cfg, args).Success?
    requires forall k :: 0 <= k < |args| ==> Space !in args[k]
    ensures Split(Validate(cfg, args).value, Space) == args
  {
    SplitJoin(args, Space);
  }

  // ---------------------------------------------------------------------------
  // The knot-cli argument vector (runAnalysisDirect)

  const ChatCommand: Bytes := Ascii("chat")
  const WorkspaceFlag: Bytes := Ascii("-w")
  const SystemPromptFlag: Bytes := Ascii("--system-prompt")
  const PromptFlag: Bytes := Ascii("-p")
  const CodebaseFlag: Bytes := Ascii("--codebase")

  /** What knot-cli is asked to do: workspace and system prompt (empty when absent) and the log text. */
  datatype Invocation = Invocation(workspace: Bytes, systemPrompt: Bytes, prompt: Bytes)

  /** The options between `chat` and `-p`: none, one of the two, or both in the order -w, --system-prompt. */
  function ParseOptions(opts: seq<Bytes>): Option<(Bytes, Bytes)> {
    if opts == [] then Some(([], []))
    else if |opts| == 2 && opts[0] == WorkspaceFlag && opts[1] != [] then Some((opts[1], []))
    else if |opts| == 2 && opts[0] == SystemPromptFlag && opts[1] != [] then Some(([], opts[1]))
    else if |opts| == 4 && opts[0] == WorkspaceFlag && opts[1] != [] && opts[2] == SystemPromptFlag && opts[3] != []
    then Some((opts[1], opts[3]))
    else None
  }

  /** How an argument vector of the shape `chat [options] -p <text> --codebase` reads back. */
  function ParseCommandArgs(args: seq<Bytes>): Option<Invocation> {
    if |args| < 4 || args[0] != ChatCommand || args[|args| - 3] != PromptFlag || args[|args| - 1] != CodebaseFlag
    then None
    else match ParseOptions(args[1..|args| - 3])
      case None => None
      case Some((ws, sp)) => Some(Invocation(ws, sp, args[|args| - 2]))
  }

  /**
    Builds the argument vector by successive appends: `chat`, then `-w W` when the
    workspace is set, then `--system-prompt S` when the system prompt is set, then
    `-p <log text> --codebase`. It reads back as exactly that invocation.
  */
  method BuildCommandArgs(cfg: Config, logContent: Bytes) returns (args: seq<Bytes>)
    ensures |args| == 4 + (if cfg.workspacePath != [] then 2 else 0)
                        + (if cfg.systemPromptPath != [] then 2 else 0)
    ensures args[0] == ChatCommand
    ensures cfg.workspacePath != [] ==> args[1..3] == [WorkspaceFlag, cfg.workspacePath]
    ensures cfg.systemPromptPath != [] ==>
              args[|args| - 5..|args| - 3] == [SystemPromptFlag, cfg.systemPromptPath]
    ensures args[|args| - 3..] == [PromptFlag, logContent, CodebaseFlag]
    ensures ParseCommandArgs(args) ==
              Some(Invocation(cfg.workspacePath, cfg.systemPromptPath, logContent))
  {
    args := [ChatCommand];
    if cfg.workspacePath != [] {
      args := args + [WorkspaceFlag, cfg.workspacePath];
    }
    if cfg.systemPromptPath != [] {
      args := args + [SystemPromptFlag, cfg.systemPromptPath];
    }
    args := args + [PromptFlag, logContent, CodebaseFlag];
    assert |WorkspaceFlag| != |SystemPromptFlag|;
  }

  // ---------------------------------------------------------------------------
  // The output artifact

  /** `analysis_<id>.txt`, the artifact's file name and the name a truncated result is uploaded under. */
  function ArtifactName(taskId: Bytes): Bytes {
    Ascii("analysis_") + taskId + Ascii(".txt")
  }

  /** `filepath.Join(dir, name)` for a plain file name: one separator between them. */
  function JoinPath(dir: Bytes, name: Bytes): Bytes {
    if dir == [] then name
    else if dir[|dir| - 1] == Slash then dir + name
    else dir + [Slash] + name
  }

  function ArtifactPath(sharedDataPath: Bytes, taskId: Bytes): Bytes {
    JoinPath(sharedDataPath, ArtifactName(taskId))
  }

  /** Different task ids name different artifact files, so no two tasks write the same file. */
  lemma {:induction false} ArtifactPathInjective(dir: Bytes, a: Bytes, b: Bytes)
    requires ArtifactPath(dir, a) == ArtifactPath(dir, b)
    ensures a == b
  {
    var na, nb := ArtifactName(a), ArtifactName(b);
    var p := ArtifactPath(dir, a);
    var skip := if dir == [] then 0 else if dir[|dir| - 1] == Slash then |dir| else |dir| + 1;
    assert na == p[skip..] && nb == p[skip..];
    assert a == na[9..|na| - 4];
    assert b == nb[9..|nb| - 4];
  }

  /** The artifact path ends with the artifact name. */
  lemma ArtifactPathEndsWithName(dir: Bytes, taskId: Bytes)
    ensures var p := ArtifactPath(dir, taskId);
            |ArtifactName(taskId)| <= |p| && p[|p| - |ArtifactName(taskId)|..] == ArtifactName(taskId)
  {
  }

  // ---------------------------------------------------------------------------
  // Output of a local run

  const ErrorKeyword: Bytes := Ascii("Error")
  const LocalErrorKeyword: Bytes := [233, 148, 153, 232, 175, 175]  // "错误" in UTF-8

  /**
    A stderr line is kept when it is not a bracketed progress line, or when it
    mentions an error in either language.
  */
  predicate KeepStderrLine(line: Bytes) {
    !HasPrefix(line, [LeftBracket]) || Contains(line, LocalErrorKeyword) || Contains(line, ErrorKeyword)
  }

  /** The stderr lines the filter keeps, in their order. */
  function KeptLines(lines: seq<Bytes>): (kept: seq<Bytes>)
    ensures |kept| <= |lines|
  {
    if lines == [] then []
    else
      var last := lines[|lines| - 1];
      var before := lines[..|lines| - 1];
      assert lines == before + [last];
      KeptLines(before) + (if KeepStderrLine(last) then [last] else [])
  }

  /** The filter keeps exactly the lines the predicate accepts, and no line more often than it occurs. */
  lemma {:induction false} KeptLinesMembers(lines: seq<Bytes>)
    ensures forall l :: l in KeptLines(lines) <==> l in lines && KeepStderrLine(l)
    ensures multiset(KeptLines(lines)) <= multiset(lines)
    decreases |lines|
  {
    if lines != [] {
      var before := lines[..|lines| - 1];
      var last := lines[|lines| - 1];
      KeptLinesMembers(before);
      assert lines == before + [last];
      KeptLinesSnoc(before, last);
    }
  }

  /** Each line followed by a newline, as the readers write them. */
  function Rendered(lines: seq<Bytes>): Bytes {
    if lines == [] then []
    else Rendered(lines[..|lines| - 1]) + lines[|lines| - 1] + [Newline]
  }

  lemma KeptLinesSnoc(lines: seq<Bytes>, line: Bytes)
    ensures KeptLines(lines + [line]) == KeptLines(lines) + (if KeepStderrLine(line) then [line] else [])
  {
    assert (lines + [line])[..|lines|] == lines;
  }

  lemma RenderedSnoc(lines: seq<Bytes>, line: Bytes)
    ensures Rendered(lines + [line]) == Rendered(lines) + (line + [Newline])
  {
    assert (lines + [line])[..|lines|] == lines;
  }

  /** A line without a bracket in front is always kept. */
  lemma UnbracketedLineKept(line: Bytes)
    requires line == [] || line[0] != LeftBracket
    ensures KeepStderrLine(line)
  {
  }

  /** A bracketed progress line is kept exactly when it mentions an error. */
  lemma BracketedLineKeptIffError(line: Bytes)
    requires line != [] && line[0] == LeftBracket
    ensures KeepStderrLine(line) <==> Contains(line, LocalErrorKeyword) || Contains(line, ErrorKeyword)
  {
    assert HasPrefix(line, [LeftBracket]);
  }

  lemma {:induction false} RenderedAppend(a: seq<Bytes>, b: seq<Bytes>)
    ensures Rendered(a + b) == Rendered(a) + Rendered(b)
    decreases |b|
  {
    if b == [] {
      assert a + b == a;
    } else {
      var c := b[..|b| - 1];
      assert (a + b)[..|a + b| - 1] == a + c;
      RenderedAppend(a, c);
    }
  }

  /**
    The written text can be cut back into the written lines: splitting it at
    newlines gives the lines, and one empty piece after the final newline.
  */
  lemma {:induction false} RenderedSplitsBack(lines: seq<Bytes>)
    requires forall k :: 0 <= k < |lines| ==> Newline !in lines[k]
    ensures Split(Rendered(lines), Newline) == lines + [[]]
    decreases |lines|
  {
    if lines == [] {
      assert Rendered(lines) == [];
    } else {
      var rest := lines[1..];
      RenderedSplitsBack(rest);
      RenderedAppend([lines[0]], rest);
      assert [lines[0]] + rest == lines;
      assert Rendered([lines[0]]) == lines[0] + [Newline] by {
        assert [lines[0]][..0] == [];
      }
      SplitAfterPiece(lines[0], Newline, Rendered(rest));
    }
  }

  /**
    What the output builder and the artifact file receive. Both readers append
    to the same builder and file; the model runs them one after the other, so
    any order between the two streams is a choice of the model.
  */
  class OutputSink {
    var text: Bytes

    constructor ()
      ensures text == []
    {
      text := [];
    }

    /** The stdout reader: every line is written, each followed by a newline. */
    method DrainStdout(lines: seq<Bytes>)
      modifies this
      ensures text == old(text) + Rendered(lines)
    {
      var i := 0;
      while i < |lines|
        invariant 0 <= i <= |lines|
        invariant text == old(text) + Rendered(lines[..i])
      {
        assert lines[..i + 1][..i] == lines[..i];
        text := text + lines[i] + [Newline];
        i := i + 1;
      }
      assert lines[..i] == lines;
    }

    /** The stderr reader: only the lines the filter keeps are written, each followed by a newline. */
    method DrainStderr(lines: seq<Bytes>)
      modifies this
      ensures text == old(text) + Rendered(KeptLines(lines))
    {
      var i := 0;
      while i < |lines|
        invariant 0 <= i <= |lines|
        invariant text == old(text) + Rendered(KeptLines(lines[..i]))
      {
        var line := lines[i];
        ghost var written := Rendered(KeptLines(lines[..i]));
        RenderedKeptStep(lines, i);
        if KeepStderrLine(line) {
          text := text + (line + [Newline]);
          assert text == old(text) + (written + (line + [Newline]));
        }
        i := i + 1;
      }
      assert lines[..i] == lines;
    }
  }

  /** One more stderr line adds that line and a newline to the written text when the filter keeps it, and nothing otherwise. */
  lemma RenderedKeptStep(lines: seq<Bytes>, i: nat)
    requires i < |lines|
    ensures Rendered(KeptLines(lines[..i + 1])) ==
            Rendered(KeptLines(lines[..i])) + (if KeepStderrLine(lines[i]) then lines[i] + [Newline] else [])
  {
    var done := KeptLines(lines[..i]);
    assert lines[..i + 1] == lines[..i] + [lines[i]];
    KeptLinesSnoc(lines[..i], lines[i]);
    if KeepStderrLine(lines[i]) {
      assert KeptLines(lines[..i + 1]) == done + [lines[i]];
      RenderedSnoc(done, lines[i]);
    } else {
      assert KeptLines(lines[..i + 1]) == done + [] == done;
    }
  }

  // ---------------------------------------------------------------------------
  // Failure messages

  const TimeoutPrefix: Bytes := Ascii("analysis timed out after ")

  const CreateFileErrorPrefix: Bytes := Ascii("failed to create output file: ")
  const StdoutPipeErrorPrefix: Bytes := Ascii("failed to create stdout pipe: ")
  const StderrPipeErrorPrefix: Bytes := Ascii("failed to create stderr pipe: ")
  const StartErrorPrefix: Bytes := Ascii("failed to start knot-cli: ")
  const KnotCliErrorPrefix: Bytes := Ascii("knot-cli error: ")
  const ConnectErrorPrefix: Bytes := Ascii("failed to connect to proxy: ")

  /** `analysis timed out after %d seconds`: the prefix, the timeout in decimal, and the unit. */
  function TimeoutMessage(timeout: int): (m: Bytes)
    ensures HasPrefix(m, TimeoutPrefix)
  {
    TimeoutPrefix + Decimal(timeout) + Ascii(" seconds")
  }

  // ---------------------------------------------------------------------------
  // Outcome of a local run

  /**
    What supervising knot-cli can end in: one of the set-up steps fails, or the
    process exits, possibly after the deadline and possibly with an error.
  */
  datatype DirectRun =
    | CreateFileFailed(err: Bytes)
    | StdoutPipeFailed(err: Bytes)
    | StderrPipeFailed(err: Bytes)
    | StartFailed(err: Bytes)
    | Exited(deadlineExceeded: bool, waitError: Option<Bytes>)

  /**
    The error `runAnalysisDirect` hands to completeTask, if any. The deadline is
    checked before the exit status, so a timed-out run is a timeout even when
    knot-cli also reported an error or finished.
  */
  function DirectError(run: DirectRun, timeout: int): (e: Option<Bytes>)
    ensures e.None? <==> run == Exited(false, None)
    ensures run.CreateFileFailed? ==> e == Some(CreateFileErrorPrefix + run.err)
    ensures run.StdoutPipeFailed? ==> e == Some(StdoutPipeErrorPrefix + run.err)
    ensures run.StderrPipeFailed? ==> e == Some(StderrPipeErrorPrefix + run.err)
    ensures run.StartFailed? ==> e == Some(StartErrorPrefix + run.err)
    ensures run.Exited? && run.deadlineExceeded ==> e == Some(TimeoutMessage(timeout))
    ensures run.Exited? && !run.deadlineExceeded && run.waitError.Some? ==>
              e == Some(KnotCliErrorPrefix + run.waitError.value)
  {
    match run
    case CreateFileFailed(err) => Some(CreateFileErrorPrefix + err)
    case StdoutPipeFailed(err) => Some(StdoutPipeErrorPrefix + err)
    case StderrPipeFailed(err) => Some(StderrPipeErrorPrefix + err)
    case StartFailed(err) => Some(StartErrorPrefix + err)
    case Exited(deadlineExceeded, waitError) =>
      if deadlineExceeded then Some(TimeoutMessage(timeout))
      else if waitError.Some? then Some(KnotCliErrorPrefix + waitError.value)
      else None
  }

  /** A local run's error reads as a timeout exactly when the run passed its deadline. */
  lemma DirectTimeoutRecognisable(run: DirectRun, timeout: int)
    requires DirectError(run, timeout).Some?
    ensures HasPrefix(DirectError(run, timeout).value, TimeoutPrefix) <==> run.Exited? && run.deadlineExceeded
  {
    var m := DirectError(run, timeout).value;
    assert TimeoutPrefix[0] == 97;
    if !(run.Exited? && run.deadlineExceeded) {
      assert m[0] != 97;
    }
  }

  // ---------------------------------------------------------------------------
  // Polling the remote service (runAnalysisViaProxy)

  /**
    One poll of the status endpoint: the request failed, the body did not decode,
    or the service reported a status with its content, duration and error.
  */
  datatype PollResponse =
    | Unreachable(err: Bytes)
    | Undecodable(err: Bytes)
    | Reported(status: Bytes, content: Bytes, durationSeconds: real, error: Bytes)

  datatype PollDecision =
    | KeepPolling
    | Finished(content: Bytes, durationSeconds: real)
    | ProxyFailed(message: Bytes)

  const ProxyErrorPrefix: Bytes := Ascii("proxy error: ")

  /**
    The decision after one poll: "completed" finishes with the reported content
    and duration, "failed" fails with the reported error, and anything else
    (other statuses, transport and decoding errors) polls again.
  */
  function DecidePoll(resp: PollResponse): (d: PollDecision)
    ensures d.Finished? <==> resp.Reported? && resp.status == Completed.Name()
    ensures d.ProxyFailed? <==> resp.Reported? && resp.status == Failed.Name()
    ensures d.Finished? ==> d.content == resp.content && d.durationSeconds == resp.durationSeconds
    ensures d.ProxyFailed? ==> d.message == ProxyErrorPrefix + resp.error
  {
    NamesDistinct(Completed, Failed);
    match resp
    case Reported(status, content, duration, error) =>
      if status == Completed.Name() then Finished(content, duration)
      else if status == Failed.Name() then ProxyFailed(ProxyErrorPrefix + error)
      else KeepPolling
    case _ => KeepPolling
  }

  /**
    The poll loop over the responses that arrive before the deadline: it stops at
    the first decisive one. `KeepPolling` as the result means none was decisive,
    so the deadline ends the loop.
  */
  method PollUntilDecided(responses: seq<PollResponse>) returns (d: PollDecision)
    ensures d.KeepPolling? <==> forall i :: 0 <= i < |responses| ==> DecidePoll(responses[i]).KeepPolling?
    ensures !d.KeepPolling? ==>
              exists i :: 0 <= i < |responses| && d == DecidePoll(responses[i]) &&
                          forall j :: 0 <= j < i ==> DecidePoll(responses[j]).KeepPolling?
    ensures d == FirstDecision(responses)
  {
    var i := 0;
    while i < |responses|
      invariant 0 <= i <= |responses|
      invariant forall j :: 0 <= j < i ==> DecidePoll(responses[j]).KeepPolling?
      invariant FirstDecision(responses[i..]) == FirstDecision(responses)
    {
      assert responses[i..][1..] == responses[i + 1..];
      d := DecidePoll(responses[i]);
      if !d.KeepPolling? {
        return;
      }
      i := i + 1;
    }
    d := KeepPolling;
  }

  /**
    The decision the poll loop settles on, as a function of the responses it
    sees: polling goes on exactly when no response is decisive.
  */
  function FirstDecision(responses: seq<PollResponse>): (d: PollDecision)
    ensures d.KeepPolling? <==> forall i :: 0 <= i < |responses| ==> DecidePoll(responses[i]).KeepPolling?
    decreases |responses|
  {
    if responses == [] then KeepPolling
    else if !DecidePoll(responses[0]).KeepPolling? then DecidePoll(responses[0])
    else
      assert forall i :: 1 <= i < |responses| ==> responses[i] == responses[1..][i - 1];
      FirstDecision(responses[1..])
  }

  /** Response `i` is decisive and every earlier one said to keep polling. */
  predicate DecisiveAt(responses: seq<PollResponse>, i: nat) {
    && i < |responses| && !DecidePoll(responses[i]).KeepPolling?
    && forall j :: 0 <= j < i ==> DecidePoll(responses[j]).KeepPolling?
  }

  /** The loop settles on the decision of the first decisive response. */
  lemma {:induction false} FirstDecisionAt(responses: seq<PollResponse>, i: nat)
    requires DecisiveAt(responses, i)
    ensures FirstDecision(responses) == DecidePoll(responses[i])
    decreases i
  {
    if i > 0 {
      assert DecidePoll(responses[0]).KeepPolling?;
      assert forall j :: 0 <= j < i - 1 ==> responses[1..][j] == responses[j + 1];
      FirstDecisionAt(responses[1..], i - 1);
    }
  }

  /**
    What a remote run can end in: the submission fails, or it is accepted and the
    listed poll responses arrive before the deadline (their number is decided by
    the 2-second poll interval and the timeout, which are not modelled).
  */
  datatype ProxyRun = PostFailed(err: Bytes) | Submitted(responses: seq<PollResponse>)

  /**
    The error `runAnalysisViaProxy` hands to completeTask, if any: the connection
    failure, the service's reported failure, or the timeout when no poll was decisive.
  */
  function ProxyError(run: ProxyRun, timeout: int): (e: Option<Bytes>)
    ensures e.None? <==> run.Submitted? && FirstDecision(run.responses).Finished?
    ensures run.PostFailed? ==> e == Some(ConnectErrorPrefix + run.err)
    ensures run.Submitted? && FirstDecision(run.responses).ProxyFailed? ==>
              e == Some(FirstDecision(run.responses).message)
    ensures run.Submitted? && FirstDecision(run.responses).KeepPolling? ==> e == Some(TimeoutMessage(timeout))
  {
    match run
    case PostFailed(err) => Some(ConnectErrorPrefix + err)
    case Submitted(responses) =>
      match FirstDecision(responses)
      case Finished(_, _) => None
      case ProxyFailed(message) => Some(message)
      case KeepPolling => Some(TimeoutMessage(timeout))
  }

  /**
    When the first decisive poll reports "failed", the remote run fails with
    "proxy error: " followed by the error the service reported.
  */
  lemma ProxyFailureMessage(responses: seq<PollResponse>, i: nat, timeout: int)
    requires DecisiveAt(responses, i)
    requires responses[i].Reported? && responses[i].status == Failed.Name()
    ensures ProxyError(Submitted(responses), timeout) == Some(ProxyErrorPrefix + responses[i].error)
  {
    FirstDecisionAt(responses, i);
  }

  /**
    When the first decisive poll reports "completed", the remote run succeeds
    with that response's content and duration.
  */
  lemma ProxyCompletionResult(responses: seq<PollResponse>, i: nat, timeout: int)
    requires DecisiveAt(responses, i)
    requires responses[i].Reported? && responses[i].status == Completed.Name()
    ensures ProxyError(Submitted(responses), timeout).None?
    ensures FirstDecision(responses) == Finished(responses[i].content, responses[i].durationSeconds)
  {
    FirstDecisionAt(responses, i);
  }
}
