/**
  What a finished `kubectl` run turns into (kubeapply.go `Response`,
  `getExitStatus` and `embedError`): the error the process left, reduced to
  an exit code, and folded into the reported standard error.
*/
module Responses {
  import opened Strings

  /**
    The `error` a command run returns: nil, an *exec.ExitError carrying the
    wait status's exit code (-1 when a signal ended the process), or any other
    error (the program could not be started, the context was cancelled),
    known by its message.
  */
  datatype GoError = Nil | ExitError(status: int) | Failure(message: string)

  /** The exit codes an *exec.ExitError can carry on Unix: a failure code or -1 for a signal. */
  predicate ValidError(e: GoError) {
    e.ExitError? ==> e.status == -1 || 1 <= e.status <= 255
  }

  /**
    getExitStatus: 0 means the process succeeded, a positive code is the
    process's own failure, -1 covers everything else.
  */
  function ExitStatus(e: GoError): (code: int)
    ensures ValidError(e) ==> -1 <= code <= 255
    ensures ValidError(e) ==> (code == 0 <==> e.Nil?)
    ensures code > 0 ==> e.ExitError? && code == e.status
    ensures e.ExitError? ==> code == e.status
    ensures e.Failure? ==> code == -1
  {
    match e
    case Nil => 0
    case ExitError(status) => status
    case Failure(_) => -1
  }

  const EmbedSeparator := "\nkubeapply exec.Command error: "

  /**
    embedError: the process's own standard error is kept as is when it ran
    (nil or exit error); any other error's message is appended after a
    separator line, or stands alone when nothing was written to stderr.
  */
  function EmbedError(stderr: string, e: GoError): (r: string)
    ensures !e.Failure? ==> r == stderr
    ensures e.Failure? ==> HasPrefix(r, stderr) && HasSuffix(r, e.message)
    ensures e.Failure? && stderr == "" ==> r == e.message
    ensures e.Failure? && stderr != "" ==> |r| == |stderr| + |EmbedSeparator| + |e.message|
                                           && r[|stderr|..|stderr| + |EmbedSeparator|] == EmbedSeparator
  {
    match e
    case Failure(message) =>
      if stderr == "" then message else stderr + EmbedSeparator + message
    case _ => stderr
  }

  /** The JSON response of an apply request. Stdout holds the raw output text. */
  datatype Response = Response(
    id: string,
    command: string,
    args: seq<string>,
    cmdLine: string,
    stderr: string,
    stdout: string,
    exitCode: int,
    dir: string)
}
