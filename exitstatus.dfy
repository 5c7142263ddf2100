/**
 * The agent's view of how the child process ended, and the exit classifier
 * `exitStatusFromError` of paramedic/exitstatus.go.
 *
 * Go inspects the error returned by `exec.Cmd.Wait` dynamically: is it an
 * `*exec.ExitError`, and is its `Sys()` a `syscall.WaitStatus`?  Here that
 * inspection is decided once, in the shape of `WaitOutcome`.  The wait status
 * itself is kept abstract: `exited` and `exitStatus` are the answers of its
 * `Exited()` and `ExitStatus()` methods, not a bit encoding.
 */
module ExitStatus {
  import opened Common

  /** The answers of `syscall.WaitStatus.Exited()` and `.ExitStatus()`. */
  datatype WaitStatus = WaitStatus(exited: bool, exitStatus: int)

  /** The error that waiting on the child produced. */
  datatype WaitOutcome =
    | NoError
      /** An `*exec.ExitError`; `sys` is `Some` exactly when `Sys()` is a `WaitStatus`. */
    | ExitErr(text: string, sys: Option<WaitStatus>)
      /** Any other error, such as a failure to find the executable. */
    | OtherErr(text: string)

  /** The sentinel code for every termination that is not a clean exit. */
  const ErrorExitStatus: int := 255

  const NotExitedProperly: string := "the process did not exit properly"
  const NoWaitStatus: string := "an error does not implement syscall.WaitStatus"

  /** The `(int, error)` pair the classifier returns. */
  datatype Classified = Classified(code: int, err: Option<string>)

  /** True when the child ran to completion and reported a normal exit. */
  predicate ExitedNormally(w: WaitOutcome) {
    w.ExitErr? && w.sys.Some? && w.sys.value.exited
  }

  /** `exitStatusFromError`: a total mapping from wait outcomes to codes. */
  function ExitStatusFromError(w: WaitOutcome): (r: Classified)
    // the error is nil exactly for a nil input or a normal exit ...
    ensures r.err.None? <==> (w.NoError? || ExitedNormally(w))
    // ... and every other outcome is reported with the sentinel code
    ensures r.err.Some? ==> r.code == ErrorExitStatus
    ensures w.NoError? ==> r.code == 0
    ensures ExitedNormally(w) ==> r.code == w.sys.value.exitStatus
    ensures w.ExitErr? && w.sys.Some? && !w.sys.value.exited ==> r.err == Some(NotExitedProperly)
    ensures w.ExitErr? && w.sys.None? ==> r.err == Some(NoWaitStatus)
    ensures w.OtherErr? ==> r.err == Some(w.text)
  {
    match w
    case NoError => Classified(0, None)
    case ExitErr(_, sys) =>
      (match sys
       case Some(s) =>
         if s.exited then Classified(s.exitStatus, None)
         else Classified(ErrorExitStatus, Some(NotExitedProperly))
       case None => Classified(ErrorExitStatus, Some(NoWaitStatus)))
    case OtherErr(text) => Classified(ErrorExitStatus, Some(text))
  }

  /** The three kinds of termination the classifier distinguishes. */
  datatype ExitKind = Exited(code: int) | SignaledAbnormally | AgentInternalError(cause: string)

  /** An independent reading of a wait outcome as one of the three kinds. */
  function KindOf(w: WaitOutcome): ExitKind {
    if w.NoError? then Exited(0)
    else if ExitedNormally(w) then Exited(w.sys.value.exitStatus)
    else if w.ExitErr? then SignaledAbnormally
    else AgentInternalError(w.text)
  }

  /** The classifier agrees with the three-way reading: an exit keeps its own
      code and carries no error; the two abnormal kinds share the sentinel. */
  lemma ClassifierMatchesKind(w: WaitOutcome)
    ensures KindOf(w).Exited? <==> ExitStatusFromError(w).err.None?
    ensures KindOf(w).Exited? ==> ExitStatusFromError(w).code == KindOf(w).code
    ensures !KindOf(w).Exited? ==> ExitStatusFromError(w).code == ErrorExitStatus
    ensures KindOf(w).AgentInternalError? ==> ExitStatusFromError(w).err == Some(KindOf(w).cause)
  {
  }
}
