/**
  The send loop of `sendBarcode` in `OmronVTInterfaceModule/__init__.py`:
  after the serial connection is up, the current barcode is written to the
  inspection machine, followed by CR LF, as long as it is no older than the
  freshness window, with a pause after every attempt, successful or not.
 */
module OutputForwarder {
  import opened Optional
  import opened Text
  import OvtimConfig
  import BarcodeDebounce

  /** The freshness gate: the current barcode is at most 30 s old. */
  predicate IsFresh(currentAt: real, now: real) {
    now - currentAt <= OvtimConfig.BarcodeOutputTimeLimit
  }

  /** The text written for a current barcode: stripped, then CR LF. */
  function Payload(current: string): string {
    Strip(current) + "\r\n"
  }

  /** One pass of the send loop: nothing when the barcode is stale, else a
      write that either succeeds or raises (the exception is only logged). */
  datatype Action = Idle | Sent(payload: string) | WriteFailed(payload: string)

  function Forward(current: string, currentAt: real, now: real, writeOk: bool): (a: Action)
    ensures a.Idle? <==> now - currentAt > OvtimConfig.BarcodeOutputTimeLimit
    ensures a.Sent? <==> IsFresh(currentAt, now) && writeOk
    ensures !a.Idle? ==> EndsWithCrLf(a.payload)
  {
    if IsFresh(currentAt, now) then
      if writeOk then Sent(Payload(current)) else WriteFailed(Payload(current))
    else
      Idle
  }

  predicate EndsWithCrLf(s: string) {
    |s| >= 2 && s[|s| - 2..] == "\r\n"
  }

  /** The pause that follows a pass: the send interval after a write attempt;
      none when the barcode is stale, since that branch has no sleep. */
  function PauseAfter(a: Action): (p: real)
    ensures p == 0.0 <==> a.Idle?
    ensures !a.Idle? ==> p == OvtimConfig.BarcodeSleepTime
  {
    if a.Idle? then 0.0 else OvtimConfig.BarcodeSleepTime
  }

  /** What the send loop sees on one pass: the current barcode, its time, the
      clock, and whether the serial write succeeds. */
  datatype Tick = Tick(current: string, currentAt: real, now: real, writeOk: bool)

  /** The number of passes with a fresh barcode. */
  function FreshCount(ticks: seq<Tick>): (n: nat)
    ensures n <= |ticks|
    decreases |ticks|
  {
    if |ticks| == 0 then 0
    else
      var t := ticks[|ticks| - 1];
      FreshCount(ticks[..|ticks| - 1]) + (if IsFresh(t.currentAt, t.now) then 1 else 0)
  }

  /** What reaches the machine over a run, in order: the payload of every
      fresh pass whose write succeeds. */
  function Delivered(ticks: seq<Tick>): seq<string>
    decreases |ticks|
  {
    if |ticks| == 0 then []
    else
      var t := ticks[|ticks| - 1];
      Delivered(ticks[..|ticks| - 1]) + (if IsFresh(t.currentAt, t.now) && t.writeOk then [Payload(t.current)] else [])
  }

  /** The number of fresh passes whose write raises. */
  function FailedWrites(ticks: seq<Tick>): nat
    decreases |ticks|
  {
    if |ticks| == 0 then 0
    else
      var t := ticks[|ticks| - 1];
      FailedWrites(ticks[..|ticks| - 1]) + (if IsFresh(t.currentAt, t.now) && !t.writeOk then 1 else 0)
  }

  /** Extending a run by pass `i` extends the three tallies by that pass alone. */
  lemma PrefixStep(ticks: seq<Tick>, i: nat)
    requires i < |ticks|
    ensures var t := ticks[i];
      && FreshCount(ticks[..i + 1]) == FreshCount(ticks[..i]) + (if IsFresh(t.currentAt, t.now) then 1 else 0)
      && Delivered(ticks[..i + 1]) == Delivered(ticks[..i]) + (if IsFresh(t.currentAt, t.now) && t.writeOk then [Payload(t.current)] else [])
      && FailedWrites(ticks[..i + 1]) == FailedWrites(ticks[..i]) + (if IsFresh(t.currentAt, t.now) && !t.writeOk then 1 else 0)
  {
    assert ticks[..i + 1][..i] == ticks[..i];
  }

  /** Every fresh pass makes exactly one write attempt, which either delivers
      its payload or fails; every delivered payload ends in CR LF. */
  lemma {:induction false} AttemptsAreFreshPasses(ticks: seq<Tick>)
    ensures |Delivered(ticks)| + FailedWrites(ticks) == FreshCount(ticks)
    ensures forall k :: 0 <= k < |Delivered(ticks)| ==> EndsWithCrLf(Delivered(ticks)[k])
    decreases |ticks|
  {
    if |ticks| > 0 {
      var init := ticks[..|ticks| - 1];
      AttemptsAreFreshPasses(init);
      var t := ticks[|ticks| - 1];
      var d := Delivered(ticks);
      assert d == Delivered(init) + (if IsFresh(t.currentAt, t.now) && t.writeOk then [Payload(t.current)] else []);
      forall k | 0 <= k < |d|
        ensures EndsWithCrLf(d[k])
      {
        if k >= |Delivered(init)| {
          assert d[k] == Payload(t.current);
          assert Forward(t.current, t.currentAt, t.now, true) == Sent(Payload(t.current));
        } else {
          assert d[k] == Delivered(init)[k];
        }
      }
    }
  }

  /** The send loop over a sequence of passes. A failed write does not end the
      loop: it writes exactly the payloads of the fresh passes whose write
      succeeds, in order, counts the failed ones, and pauses the send interval
      after each attempt. */
  method SendLoop(ticks: seq<Tick>) returns (written: seq<string>, failures: nat, paused: real)
    ensures written == Delivered(ticks)
    ensures failures == FailedWrites(ticks)
    ensures |written| + failures == FreshCount(ticks)
    ensures paused == OvtimConfig.BarcodeSleepTime * (|written| + failures) as real
  {
    written := [];
    failures := 0;
    paused := 0.0;
    var i := 0;
    while i < |ticks|
      invariant 0 <= i <= |ticks|
      invariant written == Delivered(ticks[..i])
      invariant failures == FailedWrites(ticks[..i])
      invariant paused == OvtimConfig.BarcodeSleepTime * (|written| + failures) as real
    {
      var t := ticks[i];
      PrefixStep(ticks, i);
      var a := Forward(t.current, t.currentAt, t.now, t.writeOk);
      match a {
        case Idle =>
        case Sent(p) => written := written + [p];
        case WriteFailed(_) => failures := failures + 1;
      }
      paused := paused + PauseAfter(a);
      i := i + 1;
    }
    assert ticks[..|ticks|] == ticks;
    AttemptsAreFreshPasses(ticks);
  }

  /** After a scan is accepted, the machine receives exactly that barcode plus
      CR LF for 30 s, and nothing after that unless another scan is accepted. */
  lemma ForwardsAcceptedBarcode(b: BarcodeDebounce.Bridge, ip: string, raw: seq<BarcodeDebounce.Byte>, t: real, now: real)
    requires BarcodeDebounce.OnLine(b, ip, raw, t).outcome.Accepted?
    ensures var s := BarcodeDebounce.OnLine(b, ip, raw, t);
      && (now <= t + OvtimConfig.BarcodeOutputTimeLimit ==>
            Forward(s.bridge.current, s.bridge.currentAt, now, true) == Sent(s.outcome.barcode + "\r\n"))
      && (now > t + OvtimConfig.BarcodeOutputTimeLimit ==>
            Forward(s.bridge.current, s.bridge.currentAt, now, true) == Idle)
  {
    var s := BarcodeDebounce.OnLine(b, ip, raw, t);
    var bc := s.outcome.barcode;
    BarcodeDebounce.OnLineCurrent(b, ip, raw, t);
    BarcodeDebounce.HandleAccepted(b, ip, BarcodeDebounce.Normalize(raw).value, t);
    assert BarcodeDebounce.Normalize(raw) == Some(bc);
    StripFixedPoints(bc);
    assert Strip(bc) == bc;
  }

  /** With the start-up current barcode (empty, stamped at time 0), nothing is
      written once the clock is past the freshness window. */
  lemma NothingForwardedInitially(now: real, writeOk: bool)
    requires now > OvtimConfig.BarcodeOutputTimeLimit
    ensures var b := BarcodeDebounce.InitialBridge();
      Forward(b.current, b.currentAt, now, writeOk) == Idle
  {
  }
}
