/**
 * The command-line front end of paramedic/cli.go: option validation
 * (`parseFlag`), the agent's exit-code mapping (`Start`) and the event loop of
 * `startWithOptions`, which forwards signals to the command until it exits.
 *
 * The `flag` package and `time.ParseDuration` are oracles: `parseFlag` is
 * given what the flag set parsed (or its parse error) and a duration parser.
 * Starting the command is given as its error, if any, and the two channels
 * the loop selects on are given as one sequence of events in the order the
 * select observes them.
 */
module Cli {
  import opened Common
  import opened ExitStatus

  /** The exit code for failures of the agent itself. */
  const AgentExitCode: int := 254

  /** The exit code for a command line that does not validate. */
  const UsageExitCode: int := 1

  /** The values the flag set holds after a successful `fs.Parse`. */
  datatype ParsedFlags = ParsedFlags(
    outputLogGroup: string, outputLogStream: string,
    signalS3Bucket: string, signalS3Key: string,
    scriptS3Bucket: string, scriptS3Key: string,
    uploadInterval: string, signalInterval: string,
    positional: seq<string>)

  /** `Options`; the two intervals are durations in nanoseconds. */
  datatype Options = Options(
    args: seq<string>,
    outputLogGroup: string, outputLogStream: string,
    signalS3Bucket: string, signalS3Key: string,
    scriptS3Bucket: string, scriptS3Key: string,
    uploadInterval: int, signalInterval: int)

  function MandatoryMessage(name: string): string {
    "-" + name + " is mandatory option"
  }

  const CommandNotSpecified: string := "command is not specified"

  /** `parseFlag`: the mandatory options are checked one after the other,
      then the command, then the two intervals. */
  function ParseFlag(parsed: Result<ParsedFlags>, parseDuration: string -> Result<int>): (r: Result<Options>)
    ensures parsed.Err? ==> r == Err(parsed.error)
    ensures r.Ok? ==> parsed.Ok? && r.value.args == parsed.value.positional && |r.value.args| >= 1
  {
    if parsed.Err? then Err(parsed.error)
    else
      var f := parsed.value;
      if f.outputLogGroup == "" then Err(MandatoryMessage("output-log-group"))
      else if f.outputLogStream == "" then Err(MandatoryMessage("output-log-stream"))
      else if f.signalS3Bucket == "" then Err(MandatoryMessage("signal-s3-bucket"))
      else if f.signalS3Key == "" then Err(MandatoryMessage("signal-s3-key"))
      else if f.scriptS3Bucket == "" then Err(MandatoryMessage("script-s3-bucket"))
      else if f.scriptS3Key == "" then Err(MandatoryMessage("script-s3-key"))
      else if |f.positional| < 1 then Err(CommandNotSpecified)
      else
        match parseDuration(f.uploadInterval)
        case Err(e) => Err(e)
        case Ok(upload) =>
          match parseDuration(f.signalInterval)
          case Err(e) => Err(e)
          case Ok(signal) =>
            Ok(Options(f.positional,
                       f.outputLogGroup, f.outputLogStream,
                       f.signalS3Bucket, f.signalS3Key,
                       f.scriptS3Bucket, f.scriptS3Key,
                       upload, signal))
  }

  /** The mandatory options by flag name, in the order they are checked. */
  function Mandatory(f: ParsedFlags): seq<(string, string)> {
    [("output-log-group", f.outputLogGroup), ("output-log-stream", f.outputLogStream),
     ("signal-s3-bucket", f.signalS3Bucket), ("signal-s3-key", f.signalS3Key),
     ("script-s3-bucket", f.scriptS3Bucket), ("script-s3-key", f.scriptS3Key)]
  }

  /** The position of the first option in `fields` whose value is empty, or
      `|fields|` when every option is set. */
  function FirstEmpty(fields: seq<(string, string)>): (k: nat)
    ensures k <= |fields|
    ensures k < |fields| ==> fields[k].1 == ""
    ensures forall j :: 0 <= j < k ==> fields[j].1 != ""
  {
    if fields == [] then 0
    else if fields[0].1 == "" then 0
    else 1 + FirstEmpty(fields[1..])
  }

  /** Validation against the list of mandatory options, in both directions:
      the first empty one in check order is the one named; with all present,
      a missing command is the error; otherwise the intervals are parsed, a
      parse error is returned as is, and on success the options carry the
      flag values, the positional arguments and the two durations. */
  lemma {:induction false} ParseFlagValidation(f: ParsedFlags, parseDuration: string -> Result<int>)
    ensures var m := Mandatory(f);
      FirstEmpty(m) < |m| ==> ParseFlag(Ok(f), parseDuration) == Err(MandatoryMessage(m[FirstEmpty(m)].0))
    ensures FirstEmpty(Mandatory(f)) == |Mandatory(f)| && f.positional == [] ==>
              ParseFlag(Ok(f), parseDuration) == Err(CommandNotSpecified)
    ensures FirstEmpty(Mandatory(f)) == |Mandatory(f)| && f.positional != [] ==>
              var up, sig := parseDuration(f.uploadInterval), parseDuration(f.signalInterval);
              && (up.Err? ==> ParseFlag(Ok(f), parseDuration) == Err(up.error))
              && (up.Ok? && sig.Err? ==> ParseFlag(Ok(f), parseDuration) == Err(sig.error))
              && (up.Ok? && sig.Ok? ==>
                    ParseFlag(Ok(f), parseDuration) ==
                    Ok(Options(f.positional,
                               f.outputLogGroup, f.outputLogStream,
                               f.signalS3Bucket, f.signalS3Key,
                               f.scriptS3Bucket, f.scriptS3Key,
                               up.value, sig.value)))
    ensures ParseFlag(Ok(f), parseDuration).Ok? ==>
              FirstEmpty(Mandatory(f)) == |Mandatory(f)| && ParseFlag(Ok(f), parseDuration).value.args == f.positional
  {
    var m := Mandatory(f);
    assert m[1..][1..][1..][1..][1..][1..] == [];
    assert FirstEmpty(m[1..][1..][1..][1..][1..]) == if f.scriptS3Key == "" then 0 else 1;
    assert FirstEmpty(m[1..][1..][1..][1..]) == if f.scriptS3Bucket == "" then 0 else 1 + FirstEmpty(m[1..][1..][1..][1..][1..]);
    assert FirstEmpty(m[1..][1..][1..]) == if f.signalS3Key == "" then 0 else 1 + FirstEmpty(m[1..][1..][1..][1..]);
    assert FirstEmpty(m[1..][1..]) == if f.signalS3Bucket == "" then 0 else 1 + FirstEmpty(m[1..][1..][1..]);
    assert FirstEmpty(m[1..]) == if f.outputLogStream == "" then 0 else 1 + FirstEmpty(m[1..][1..]);
  }

  /** The events `startWithOptions` selects between. */
  datatype Event = SignalEv(signal: int) | CmdExit(result: WaitOutcome)

  /** How `startWithOptions` ended: it is still blocked in its select, or it
      returned `(err, code)`. */
  datatype LoopEnd = StillRunning | Returned(err: Option<string>, code: int)

  const NoWaitStatusMessage: string := "error does not implement syscall.WaitStatus"

  function CommandExitedMessage(status: int): string {
    "command exited with " + FormatInt(status)
  }

  /** The classification in `startWithOptions` of the command's exit. Unlike
      `ExitStatusFromError` it does not consult `Exited()`: a wait status
      always yields its `ExitStatus()`. */
  function ClassifyExit(w: WaitOutcome): (r: LoopEnd)
    ensures r.Returned?
    ensures r.err.None? <==> w.NoError?
    ensures w.NoError? ==> r.code == 0
    ensures w.ExitErr? && w.sys.Some? ==>
              r.code == w.sys.value.exitStatus && r.err == Some(CommandExitedMessage(w.sys.value.exitStatus))
    ensures w.ExitErr? && w.sys.None? ==> r.code == AgentExitCode && r.err == Some(NoWaitStatusMessage)
    ensures w.OtherErr? ==> r.code == AgentExitCode && r.err == Some(w.text)
  {
    match w
    case NoError => Returned(None, 0)
    case ExitErr(_, sys) =>
      if sys.Some? then Returned(Some(CommandExitedMessage(sys.value.exitStatus)), sys.value.exitStatus)
      else Returned(Some(NoWaitStatusMessage), AgentExitCode)
    case OtherErr(text) => Returned(Some(text), AgentExitCode)
  }

  /** The position of the first command-exit event, or `|events|` if there is none. */
  function ExitIndex(events: seq<Event>): (k: nat)
    ensures k <= |events|
    ensures k < |events| ==> events[k].CmdExit?
    ensures forall i :: 0 <= i < k ==> events[i].SignalEv?
  {
    if events == [] then 0
    else if events[0].CmdExit? then 0
    else 1 + ExitIndex(events[1..])
  }

  /** The signal numbers carried by signal events, in order. */
  function Signals(events: seq<Event>): seq<int>
    decreases |events|
  {
    if events == [] then []
    else Signals(events[..|events| - 1])
         + (if events[|events| - 1].SignalEv? then [events[|events| - 1].signal] else [])
  }

  /** `startWithOptions` after session setup: start the command, then forward
      every signal until the first command-exit event and classify that exit. */
  method StartWithOptions(startErr: Option<string>, events: seq<Event>)
    returns (end: LoopEnd, forwarded: seq<int>)
    ensures startErr.Some? ==> end == Returned(startErr, AgentExitCode) && forwarded == []
    ensures startErr.None? ==> forwarded == Signals(events[..ExitIndex(events)])
    ensures startErr.None? && ExitIndex(events) < |events| ==>
              end == ClassifyExit(events[ExitIndex(events)].result)
    ensures startErr.None? && ExitIndex(events) == |events| ==> end == StillRunning
  {
    forwarded := [];
    if startErr.Some? {
      return Returned(startErr, AgentExitCode), forwarded;
    }
    end := StillRunning;
    var i := 0;
    while i < |events|
      invariant 0 <= i <= ExitIndex(events)
      invariant forwarded == Signals(events[..i])
      invariant end == StillRunning
      decreases |events| - i
    {
      match events[i]
      case CmdExit(result) =>
        end := ClassifyExit(result);
        break;
      case SignalEv(s) =>
        assert events[..i + 1][..i] == events[..i];
        forwarded := forwarded + [s];
        i := i + 1;
    }
  }

  /** `Start`'s exit code for a validated run: 0 unless the loop reported an error. */
  function StartCode(end: LoopEnd): (code: Option<int>)
    ensures code.None? <==> end.StillRunning?
    ensures end.Returned? && end.err.None? ==> code == Some(0)
    ensures end.Returned? && end.err.Some? ==> code == Some(end.code)
  {
    if end.StillRunning? then None
    else if end.err.Some? then Some(end.code)
    else Some(0)
  }

  /** `Start`: validate the command line, then run. `code` is `None` while
      the agent is still waiting for the command. */
  method Start(parsed: Result<ParsedFlags>, parseDuration: string -> Result<int>,
               startErr: Option<string>, events: seq<Event>)
    returns (code: Option<int>, forwarded: seq<int>)
    ensures ParseFlag(parsed, parseDuration).Err? ==> code == Some(UsageExitCode) && forwarded == []
    ensures ParseFlag(parsed, parseDuration).Ok? && startErr.Some? ==> code == Some(AgentExitCode) && forwarded == []
    ensures ParseFlag(parsed, parseDuration).Ok? && startErr.None? ==>
              forwarded == Signals(events[..ExitIndex(events)]) &&
              code == (if ExitIndex(events) < |events|
                       then StartCode(ClassifyExit(events[ExitIndex(events)].result))
                       else None)
  {
    var options := ParseFlag(parsed, parseDuration);
    if options.Err? {
      return Some(UsageExitCode), [];
    }
    var end;
    end, forwarded := StartWithOptions(startErr, events);
    code := StartCode(end);
  }

  /** Once the command has exited, later events change nothing: no later
      signal is forwarded and the exit code is that of the first exit. */
  lemma {:induction false} LaterEventsIgnored(events: seq<Event>, more: seq<Event>)
    requires ExitIndex(events) < |events|
    ensures ExitIndex(events + more) == ExitIndex(events)
    ensures (events + more)[..ExitIndex(events + more)] == events[..ExitIndex(events)]
    decreases |events|
  {
    if !events[0].CmdExit? {
      assert (events + more)[1..] == events[1..] + more;
      LaterEventsIgnored(events[1..], more);
    }
  }

  /** The agent's exit code equals the command's when it exits with a wait
      status, whatever `Exited()` answers, and is 0 for a clean exit. */
  lemma AgentCodeFollowsCommand(w: WaitOutcome)
    ensures w.NoError? ==> StartCode(ClassifyExit(w)) == Some(0)
    ensures w.ExitErr? && w.sys.Some? ==> StartCode(ClassifyExit(w)) == Some(w.sys.value.exitStatus)
    ensures ExitedNormally(w) ==> StartCode(ClassifyExit(w)) == Some(ExitStatusFromError(w).code)
    ensures !w.NoError? && !(w.ExitErr? && w.sys.Some?) ==> StartCode(ClassifyExit(w)) == Some(AgentExitCode)
  {
  }
}
