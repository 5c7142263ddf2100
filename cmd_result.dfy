/**
 * The command-result uploader of paramedic/cmd_result.go: `Upload` turns the
 * error returned by waiting on the command into a `CmdResult` record and
 * stores its JSON serialisation as one object in the object store.
 *
 * JSON encoding and `PutObject` are oracles passed in as functions.
 */
module CmdResult {
  import opened Common
  import opened ExitStatus

  /** The record that is serialised and stored. */
  datatype CmdResult = CmdResult(exitStatus: int, error: string)

  /** The status recorded when no wait status is available. */
  const UnknownExitStatus: int := -1

  /** The uploader's destination (`CmdResultS3Uploader`). */
  datatype Uploader = Uploader(bucket: string, key: string)

  /** What `Upload` did: the object it tried to store, if any, and the error it returns. */
  datatype UploadOutcome = UploadOutcome(stored: Option<PutRequest>, err: Option<string>)

  /** The record `Upload` builds. `err.Error()` is called on the input, so it
      must not be nil. The wait status's `Exited()` is never consulted. */
  function ResultOf(w: WaitOutcome): (r: CmdResult)
    requires !w.NoError?
    ensures r.error == w.text
    ensures w.OtherErr? ==> r.exitStatus == UnknownExitStatus
    ensures w.ExitErr? && w.sys.None? ==> r.exitStatus == UnknownExitStatus
    ensures w.ExitErr? && w.sys.Some? ==> r.exitStatus == w.sys.value.exitStatus
  {
    match w
    case ExitErr(text, sys) =>
      if sys.Some? then CmdResult(sys.value.exitStatus, text)
      else CmdResult(UnknownExitStatus, text)
    case OtherErr(text) => CmdResult(UnknownExitStatus, text)
  }

  /** `Upload`: serialise the record and store it at the uploader's key. A
      serialisation failure stores nothing; either failure is returned as is. */
  function Upload(u: Uploader, w: WaitOutcome,
                  encode: CmdResult -> Result<seq<char>>,
                  store: PutRequest -> Option<string>): (r: UploadOutcome)
    requires !w.NoError?
    ensures encode(ResultOf(w)).Err? ==> r.stored.None? && r.err == Some(encode(ResultOf(w)).error)
    ensures encode(ResultOf(w)).Ok? ==>
              r.stored == Some(PutRequest(u.bucket, u.key, encode(ResultOf(w)).value)) &&
              r.err == store(r.stored.value)
  {
    var rec := ResultOf(w);
    match encode(rec)
    case Err(e) => UploadOutcome(None, Some(e))
    case Ok(body) =>
      var req := PutRequest(u.bucket, u.key, body);
      UploadOutcome(Some(req), store(req))
  }

  /** The recorded status depends only on `ExitStatus()`, never on `Exited()`. */
  lemma RecordIgnoresExited(text: string, code: int, e1: bool, e2: bool)
    ensures ResultOf(ExitErr(text, Some(WaitStatus(e1, code)))).exitStatus
         == ResultOf(ExitErr(text, Some(WaitStatus(e2, code)))).exitStatus
         == code
  {
  }

  /** For a normal exit the record and the exit classifier agree on the code;
      for a wait status that did not exit they part: the classifier reports its
      sentinel, the record keeps whatever `ExitStatus()` answered. */
  lemma RecordVersusClassifier(w: WaitOutcome)
    requires !w.NoError?
    ensures ExitedNormally(w) ==> ResultOf(w).exitStatus == ExitStatusFromError(w).code
    ensures w.ExitErr? && w.sys.Some? && !w.sys.value.exited ==>
              ExitStatusFromError(w).code == ErrorExitStatus &&
              ResultOf(w).exitStatus == w.sys.value.exitStatus
    ensures w.OtherErr? ==> ResultOf(w).exitStatus == UnknownExitStatus != ExitStatusFromError(w).code
  {
  }
}
