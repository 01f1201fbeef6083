/**
  The connect phase shared by the scanner read loop (LAN) and the barcode
  output loop (serial) in `OmronVTInterfaceModule/__init__.py`: up to three
  attempts, a notification after each failure, a 30-second pause before each
  retry, and no further attempt after the third failure.

  Whether attempt number `n` succeeds is the parameter `attemptOk(n)`; the
  pauses are added up rather than slept.
 */
module ConnectRetry {

  /** The number of connection attempts before giving up. */
  const MaxAttempts: nat := 3

  /** The pause before each retry, in seconds. */
  const RetryPause: real := 30.0

  datatype Transport = Lan | Serial

  /** A failure notification: the event type string and the attempt it reports. */
  datatype Notice = Notice(kind: string, attempt: nat)

  /** The event type after a failed attempt that will be retried. */
  function RetryKind(t: Transport): string {
    match t
    case Lan => "error_retry"
    case Serial => "errorSerial"
  }

  /** The event type after the last failed attempt. */
  function TerminalKind(t: Transport): string {
    match t
    case Lan => "error"
    case Serial => "errorSerial"
  }

  /** The notice the loop emits when attempt `n` fails. */
  function FailureNotice(t: Transport, n: nat): Notice {
    Notice(if n < MaxAttempts then RetryKind(t) else TerminalKind(t), n)
  }

  /** The connect loop. `connected` tells whether the loop went on to its
      streaming phase; `attempts` is the number of connection attempts made. */
  method Connect(t: Transport, attemptOk: nat -> bool) returns (connected: bool, attempts: nat, notices: seq<Notice>, paused: real)
    ensures 1 <= attempts <= MaxAttempts
    // it connects exactly when one of the three attempts succeeds, and stops at the first success
    ensures connected <==> exists n :: 1 <= n <= MaxAttempts && attemptOk(n)
    ensures connected ==> attemptOk(attempts)
    ensures forall n :: 1 <= n < attempts ==> !attemptOk(n)
    ensures !connected ==> attempts == MaxAttempts
    // one notice per failed attempt, numbered in order; only the third is terminal
    ensures |notices| == (if connected then attempts - 1 else attempts)
    ensures forall k :: 0 <= k < |notices| ==> notices[k] == FailureNotice(t, k + 1)
    // a pause before every retry and none after the terminal failure
    ensures paused == RetryPause * (attempts - 1) as real
  {
    attempts := 1;
    notices := [];
    paused := 0.0;
    connected := false;
    while true
      invariant 1 <= attempts <= MaxAttempts
      invariant forall n :: 1 <= n < attempts ==> !attemptOk(n)
      invariant |notices| == attempts - 1
      invariant forall k :: 0 <= k < |notices| ==> notices[k] == FailureNotice(t, k + 1)
      invariant paused == RetryPause * (attempts - 1) as real
      invariant !connected
      decreases MaxAttempts - attempts
    {
      if attemptOk(attempts) {
        connected := true;
        return;
      }
      notices := notices + [FailureNotice(t, attempts)];
      if attempts > 2 {
        assert forall n :: 1 <= n <= MaxAttempts ==> !attemptOk(n);
        return;
      }
      attempts := attempts + 1;
      paused := paused + RetryPause;
    }
  }
}
