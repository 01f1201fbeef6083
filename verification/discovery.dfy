/**
  Scanner auto-detection (`ethernetAutoDetect` in
  `OmronVTInterfaceModule/ovtimfunctions.py`): a fixed query is broadcast on
  UDP port 30717; a listener reads the comma-separated answers and copies
  fixed fields of the first answer that is not an echo of the query; the
  sender re-broadcasts every 5 s, at most three times in all, and then
  reports failure with the sentinel address "-1".

  Datagrams are given as already-decoded text; the clock readings of both
  loops are parameters.
 */
module Discovery {
  import opened Optional
  import opened Text

  /** The broadcast query, `<op,019,00,FF:FF:FF:FF:FF:FF,255.255.255.255,espmac,espip,0,0>`:
      nine comma-separated fields, the seventh being the sentinel. */
  const QueryParts: seq<string> := ["<op", "019", "00", "FF:FF:FF:FF:FF:FF", "255.255.255.255", "espmac", "espip", "0", "0>"]
  const Query: string := Join(QueryParts, ',')

  /** An answer whose field 6 equals this marker is not a device (it is the query itself). */
  const Sentinel: string := "espip"
  const SentinelIndex: nat := 6

  /** Seconds without an answer before the query is sent again. */
  const ResendAfter: real := 5.0

  /** The listener gives up this many seconds after it started. */
  const ListenerTimeout: real := 10.0

  /** Broadcasts in one search, the first included. */
  const MaxSends: nat := 3

  // ---------------------------------------------------------------------------
  // Parsing one answer
  // ---------------------------------------------------------------------------

  /** One field the listener copies: the key it is stored under, its index
      among the comma-separated fields, and whether only the text after `=`
      (Python's `split('=')[1]`) is kept. */
  datatype Extractor = Extractor(key: string, index: nat, afterEquals: bool)

  /** The fields copied, in the order the listener assigns them. */
  const Extractors: seq<Extractor> := [
    Extractor("deviceMac", 5, false),
    Extractor("deviceIP", 6, false),
    Extractor("deviceTCP1", 14, false),
    Extractor("deviceTCP2", 15, false),
    Extractor("deviceUserName", 17, false),
    Extractor("deviceModel", 19, true),
    Extractor("deviceSerial", 22, true),
    Extractor("deviceFirmware", 23, true),
    Extractor("deviceWeblink", 24, true)
  ]

  /** The value one extractor reads; `None` when Python raises IndexError. */
  function FieldValue(fields: seq<string>, x: Extractor): Option<string> {
    if x.index >= |fields| then None
    else if !x.afterEquals then Some(fields[x.index])
    else
      var kv := Split(fields[x.index], '=');
      if |kv| < 2 then None else Some(kv[1])
  }

  /** An answer the listener accepts: it has the sentinel position, it is not
      the query's echo, and every copied field exists (with an `=` where needed). */
  ghost predicate IsCandidate(datagram: string) {
    var fields := Split(datagram, ',');
    && |fields| > SentinelIndex
    && fields[SentinelIndex] != Sentinel
    && forall k :: 0 <= k < |Extractors| ==> FieldValue(fields, Extractors[k]).Some?
  }

  datatype Extracted = Extracted(found: map<string, string>, complete: bool)

  /** No two extractors write the same key. */
  ghost predicate KeysDistinct(xs: seq<Extractor>) {
    forall i, j :: 0 <= i < j < |xs| ==> xs[i].key != xs[j].key
  }

  /** The listener's assignments for `xs`, in order, stopping at the first one
      that raises; the ones before it stay assigned. */
  function ExtractFrom(found: map<string, string>, fields: seq<string>, xs: seq<Extractor>): (r: Extracted)
    requires KeysDistinct(xs)
    ensures r.complete <==> forall j :: 0 <= j < |xs| ==> FieldValue(fields, xs[j]).Some?
    ensures r.complete ==> forall j :: 0 <= j < |xs| ==>
      xs[j].key in r.found && r.found[xs[j].key] == FieldValue(fields, xs[j]).value
    ensures found.Keys <= r.found.Keys
    ensures forall key :: key in found && (forall j :: 0 <= j < |xs| ==> xs[j].key != key) ==>
      r.found[key] == found[key]
    decreases |xs|
  {
    if |xs| == 0 then Extracted(found, true)
    else
      match FieldValue(fields, xs[0])
      case None => Extracted(found, false)
      case Some(v) =>
        var rest := xs[1..];
        assert KeysDistinct(rest) by {
          forall i, j | 0 <= i < j < |rest|
            ensures rest[i].key != rest[j].key
          {
            assert rest[i] == xs[i + 1] && rest[j] == xs[j + 1];
          }
        }
        assert forall j :: 0 <= j < |rest| ==> rest[j].key != xs[0].key by {
          forall j | 0 <= j < |rest|
            ensures rest[j].key != xs[0].key
          {
            assert rest[j] == xs[j + 1];
          }
        }
        var r := ExtractFrom(found[xs[0].key := v], fields, rest);
        assert forall j :: 1 <= j < |xs| ==> xs[j] == rest[j - 1];
        r
  }

  /** The nine copied fields go to nine different keys. */
  lemma ExtractorKeysDistinct()
    ensures KeysDistinct(Extractors)
  {
  }

  /** What one pass of the listener made of what it received. */
  datatype Verdict =
    | NoDatagram    // recvfrom raised: nothing waiting on the non-blocking socket
    | Raised        // the answer was too short or lacked an `=`: the exception is swallowed
    | NotCandidate  // field 6 is the sentinel
    | Candidate     // the device fields were copied; the listener signals success

  datatype Absorbed = Absorbed(found: map<string, string>, verdict: Verdict)

  /** The listener's try-block for one received datagram (or none). */
  function Absorb(found: map<string, string>, datagram: Option<string>): (r: Absorbed)
    ensures r.verdict == NoDatagram <==> datagram.None?
    ensures r.verdict != Raised ==> r.verdict == Candidate || r.found == found
  {
    match datagram
    case None => Absorbed(found, NoDatagram)
    case Some(d) =>
      var fields := Split(d, ',');
      if |fields| <= SentinelIndex then Absorbed(found, Raised)
      else if fields[SentinelIndex] == Sentinel then Absorbed(found, NotCandidate)
      else
        ExtractorKeysDistinct();
        var e := ExtractFrom(found, fields, Extractors);
        Absorbed(e.found, if e.complete then Candidate else Raised)
  }

  /** Which answers the listener takes for a device, and which it recognises
      as the query itself. */
  lemma AbsorbClassifies(found: map<string, string>, datagram: Option<string>)
    ensures Absorb(found, datagram).verdict == Candidate <==> datagram.Some? && IsCandidate(datagram.value)
    ensures Absorb(found, datagram).verdict == NotCandidate <==>
      datagram.Some? && |Split(datagram.value, ',')| > SentinelIndex && Split(datagram.value, ',')[SentinelIndex] == Sentinel
  {
    if datagram.Some? && |Split(datagram.value, ',')| > SentinelIndex && Split(datagram.value, ',')[SentinelIndex] != Sentinel {
      ExtractorKeysDistinct();
    }
  }

  /** A candidate's fields overwrite whatever an earlier malformed answer left behind. */
  lemma AbsorbCandidateFields(found: map<string, string>, datagram: string)
    requires Absorb(found, Some(datagram)).verdict == Candidate
    ensures forall k :: 0 <= k < |Extractors| ==>
      Extractors[k].key in Absorb(found, Some(datagram)).found &&
      Absorb(found, Some(datagram)).found[Extractors[k].key] == FieldValue(Split(datagram, ','), Extractors[k]).value
  {
    var fields := Split(datagram, ',');
    ExtractorKeysDistinct();
    var e := ExtractFrom(found, fields, Extractors);
    assert |fields| > SentinelIndex && fields[SentinelIndex] != Sentinel;
    assert Absorb(found, Some(datagram)) == Absorbed(e.found, if e.complete then Candidate else Raised);
    assert e.complete;
  }

  /** The query splits into nine fields with the sentinel at index 6. */
  lemma QueryFields()
    ensures Split(Query, ',') == QueryParts
    ensures Split(Query, ',')[SentinelIndex] == Sentinel
  {
    forall k | 0 <= k < |QueryParts|
      ensures ',' !in QueryParts[k]
    {
    }
    SplitJoin(QueryParts, ',');
  }

  /** The listener also receives its own broadcast; that echo is never taken for a device. */
  lemma QueryEchoIgnored(found: map<string, string>)
    ensures Absorb(found, Some(Query)) == Absorbed(found, NotCandidate)
  {
    QueryFields();
  }

  // ---------------------------------------------------------------------------
  // The listener loop
  // ---------------------------------------------------------------------------

  /** One pass of the listener: the clock when the pass starts and what
      `recvfrom` returned. */
  datatype Poll = Poll(at: real, datagram: Option<string>)

  datatype Listened = Detected(found: map<string, string>) | TimedOut(found: map<string, string>) | Listening(found: map<string, string>)

  ghost predicate CandidatePoll(p: Poll) {
    p.datagram.Some? && IsCandidate(p.datagram.value)
  }

  /** The first candidate arrives in pass `i`, with the listener still alive
      at every pass up to it. */
  ghost predicate DetectedAt(polls: seq<Poll>, start: real, i: nat) {
    && i < |polls|
    && CandidatePoll(polls[i])
    && (forall k :: 0 <= k <= i ==> polls[k].at - start <= ListenerTimeout)
    && (forall k :: 0 <= k < i ==> !CandidatePoll(polls[k]))
  }

  /** The listener thread: it stops at the first candidate, or at the first
      pass that starts more than 10 s after `start`. */
  function Listen(found: map<string, string>, start: real, polls: seq<Poll>): Listened
    decreases |polls|
  {
    if |polls| == 0 then Listening(found)
    else if polls[0].at - start > ListenerTimeout then TimedOut(found)
    else
      var a := Absorb(found, polls[0].datagram);
      if a.verdict == Candidate then Detected(a.found) else Listen(a.found, start, polls[1..])
  }

  /** The listener reports a device exactly when some pass is the first
      candidate within its lifetime, and then it holds that answer's fields. */
  lemma {:induction false} ListenDetects(found: map<string, string>, start: real, polls: seq<Poll>, i: nat)
    requires DetectedAt(polls, start, i)
    ensures Listen(found, start, polls).Detected?
    ensures forall k :: 0 <= k < |Extractors| ==>
      Extractors[k].key in Listen(found, start, polls).found &&
      Listen(found, start, polls).found[Extractors[k].key] == FieldValue(Split(polls[i].datagram.value, ','), Extractors[k]).value
    decreases i
  {
    AbsorbVerdict(found, polls[0]);
    if i > 0 {
      var a := Absorb(found, polls[0].datagram);
      DetectedAtUnshift(polls, start, i);
      ListenDetects(a.found, start, polls[1..], i - 1);
    } else {
      AbsorbCandidateFields(found, polls[0].datagram.value);
    }
  }

  /** A first candidate at a pass after the first is, one pass earlier, the
      first candidate of the rest. */
  lemma DetectedAtUnshift(polls: seq<Poll>, start: real, i: nat)
    requires i > 0 && DetectedAt(polls, start, i)
    ensures polls[0].at - start <= ListenerTimeout && !CandidatePoll(polls[0])
    ensures DetectedAt(polls[1..], start, i - 1)
  {
    var rest := polls[1..];
    forall k | 0 <= k <= i - 1
      ensures rest[k].at - start <= ListenerTimeout
    {
      assert rest[k] == polls[k + 1];
    }
    forall k | 0 <= k < i - 1
      ensures !CandidatePoll(rest[k])
    {
      assert rest[k] == polls[k + 1];
    }
  }

  /** A pass is taken for a device exactly when it carries a candidate answer. */
  lemma AbsorbVerdict(found: map<string, string>, p: Poll)
    ensures Absorb(found, p.datagram).verdict == Candidate <==> CandidatePoll(p)
  {
    AbsorbClassifies(found, p.datagram);
  }

  /** Conversely, a detection always has such a first candidate. */
  lemma {:induction false} DetectionHasFirstCandidate(found: map<string, string>, start: real, polls: seq<Poll>) returns (i: nat)
    requires Listen(found, start, polls).Detected?
    ensures DetectedAt(polls, start, i)
    decreases |polls|
  {
    var next := DetectedStep(found, start, polls);
    if CandidatePoll(polls[0]) {
      i := 0;
    } else {
      var j := DetectionHasFirstCandidate(next, start, polls[1..]);
      DetectedAtShift(polls, start, j);
      i := j + 1;
    }
  }

  /** One pass of a detecting listener: the pass is in time, and it is either
      the candidate or the rest of the passes still detect. */
  lemma DetectedStep(found: map<string, string>, start: real, polls: seq<Poll>) returns (next: map<string, string>)
    requires Listen(found, start, polls).Detected?
    ensures |polls| > 0 && polls[0].at - start <= ListenerTimeout
    ensures CandidatePoll(polls[0]) ==> DetectedAt(polls, start, 0)
    ensures !CandidatePoll(polls[0]) ==> Listen(next, start, polls[1..]).Detected?
  {
    next := Absorb(found, polls[0].datagram).found;
    AbsorbVerdict(found, polls[0]);
  }

  /** A first candidate after an earlier pass that was in time and not a
      candidate is the first candidate of the longer sequence. */
  lemma DetectedAtShift(polls: seq<Poll>, start: real, j: nat)
    requires |polls| > 0 && polls[0].at - start <= ListenerTimeout && !CandidatePoll(polls[0])
    requires DetectedAt(polls[1..], start, j)
    ensures DetectedAt(polls, start, j + 1)
  {
    var rest := polls[1..];
    assert polls[j + 1] == rest[j];
    forall k | 0 <= k <= j + 1
      ensures polls[k].at - start <= ListenerTimeout
    {
      if k > 0 {
        assert polls[k] == rest[k - 1];
      }
    }
    forall k | 0 <= k < j + 1
      ensures !CandidatePoll(polls[k])
    {
      if k > 0 {
        assert polls[k] == rest[k - 1];
      }
    }
  }

  // ---------------------------------------------------------------------------
  // The sender loop
  // ---------------------------------------------------------------------------

  /** One pass of the sender's busy loop: whether the listener has signalled
      success, and the clock. */
  datatype Reading = Reading(flagSet: bool, now: real)

  datatype SearchEnd = ListenerSignalled | GaveUp | StillSearching

  /** More than 5 s passed since the latest broadcast in `sends`. */
  predicate Late(sends: seq<real>, r: Reading)
    requires |sends| > 0
  {
    r.now - sends[|sends| - 1] > ResendAfter
  }

  /** The broadcast times after the given passes of the busy loop, counting
      every late pass as a resend and ignoring the flag and the limit. */
  function SendsAfter(start: real, passes: seq<Reading>): (r: seq<real>)
    ensures |r| > 0 && r[0] == start
    decreases |passes|
  {
    if |passes| == 0 then [start]
    else
      var before := SendsAfter(start, passes[..|passes| - 1]);
      if Late(before, passes[|passes| - 1]) then before + [passes[|passes| - 1].now] else before
  }

  /** The event the loop emits when it ends: the failure event after the last
      unanswered broadcast, the final report after the listener signalled,
      nothing while the search goes on. */
  function EndEvent(end: SearchEnd, found: map<string, string>): Option<Report> {
    match end
    case GaveUp => Some(FailureReport())
    case ListenerSignalled => FinalReport(found)
    case StillSearching => None
  }

  /** The sender loop: the first broadcast at `start`, a new one whenever more
      than 5 s passed since the last and fewer than three went out, and the
      failure event when that happens after the third. `sends` are the
      broadcast times; `at` is the pass that ended the loop; `found` is what
      the listener stored, reported if it signalled. */
  method SendLoop(start: real, readings: seq<Reading>, found: map<string, string>)
    returns (end: SearchEnd, sends: seq<real>, at: nat, event: Option<Report>)
    ensures 1 <= |sends| <= MaxSends && sends[0] == start
    ensures Spaced(sends)
    ensures end != StillSearching ==> at < |readings|
    ensures end == StillSearching ==> at == |readings|
    ensures forall k :: 0 <= k < at ==> !readings[k].flagSet
    // every pass before the last resent exactly when it was late, and never
    // had to give up
    ensures sends == SendsAfter(start, readings[..at])
    ensures forall k :: 0 <= k < at ==> PassGoesOn(start, readings, k)
    ensures end == ListenerSignalled <==> at < |readings| && readings[at].flagSet
    ensures end == GaveUp <==>
      at < |readings| && !readings[at].flagSet && Late(sends, readings[at]) && |sends| == MaxSends
    // failure is declared only after the third broadcast went unanswered for 5 s
    ensures end == GaveUp ==>
      && readings[at].now - sends[MaxSends - 1] > ResendAfter
      && readings[at].now - start > ResendAfter * MaxSends as real
    ensures event == EndEvent(end, found)
  {
    sends := [start];
    var startTimer := start;
    var attempts := 1;
    at := 0;
    while at < |readings|
      invariant 0 <= at <= |readings|
      invariant 1 <= attempts <= MaxSends && |sends| == attempts
      invariant sends == SendsAfter(start, readings[..at])
      invariant startTimer == sends[|sends| - 1]
      invariant forall k :: 0 <= k < at ==> !readings[k].flagSet
      invariant forall k :: 0 <= k < at ==> PassGoesOn(start, readings, k)
    {
      if readings[at].flagSet {
        end := ListenerSignalled;
        event := FinalReport(found);
        SendsSpaced(start, readings[..at]);
        return;
      }
      if readings[at].now - startTimer > ResendAfter {
        if attempts > 2 {
          end := GaveUp;
          event := Some(FailureReport());
          SendsSpaced(start, readings[..at]);
          assert sends[2] - sends[1] > ResendAfter && sends[1] - sends[0] > ResendAfter;
          return;
        }
        attempts := attempts + 1;
        startTimer := readings[at].now;
        sends := sends + [startTimer];
      }
      SendsAfterStep(start, readings, at);
      assert PassGoesOn(start, readings, at);
      at := at + 1;
    }
    end := StillSearching;
    event := None;
    SendsSpaced(start, readings[..at]);
  }

  /** Pass `k` of the busy loop neither saw the flag nor gave up. */
  predicate PassGoesOn(start: real, readings: seq<Reading>, k: nat)
    requires k < |readings|
  {
    var before := SendsAfter(start, readings[..k]);
    !readings[k].flagSet && (Late(before, readings[k]) ==> |before| < MaxSends)
  }

  /** One more pass extends the broadcast times by that pass's time exactly
      when it was late. */
  lemma SendsAfterStep(start: real, readings: seq<Reading>, i: nat)
    requires i < |readings|
    ensures var before := SendsAfter(start, readings[..i]);
      SendsAfter(start, readings[..i + 1])
        == if Late(before, readings[i]) then before + [readings[i].now] else before
  {
    assert readings[..i + 1][..i] == readings[..i];
  }

  /** Consecutive broadcast times are more than 5 s apart. */
  predicate Spaced(sends: seq<real>) {
    forall k :: 0 < k < |sends| ==> sends[k] - sends[k - 1] > ResendAfter
  }

  /** The broadcasts of any run are more than 5 s apart. */
  lemma {:induction false} SendsSpaced(start: real, passes: seq<Reading>)
    ensures Spaced(SendsAfter(start, passes))
    decreases |passes|
  {
    if |passes| > 0 {
      var before := SendsAfter(start, passes[..|passes| - 1]);
      SendsSpaced(start, passes[..|passes| - 1]);
      var r := SendsAfter(start, passes);
      if Late(before, passes[|passes| - 1]) {
        assert r == before + [passes[|passes| - 1].now];
        forall k | 0 < k < |r|
          ensures r[k] - r[k - 1] > ResendAfter
        {
          if k < |before| {
            assert r[k] == before[k] && r[k - 1] == before[k - 1];
          }
        }
      }
    }
  }

  /** Giving up always emits the failure event. */
  lemma GaveUpReportsFailure(found: map<string, string>)
    ensures EndEvent(GaveUp, found) == Some(Report(false, IntToString(-1), IntToString(-1), "", "", ""))
  {
  }

  /** The listener starts before the first broadcast and stops 10 s later,
      while the third broadcast goes out more than 10 s after the first: a
      detected device therefore always answered before the third broadcast. */
  lemma ThirdBroadcastUnheard(sends: seq<real>, listenStart: real, polls: seq<Poll>, i: nat)
    requires |sends| == MaxSends && listenStart <= sends[0]
    requires Spaced(sends)
    requires DetectedAt(polls, listenStart, i)
    ensures polls[i].at < sends[2]
  {
    assert sends[1] - sends[0] > ResendAfter;
    assert sends[2] - sends[1] > ResendAfter;
  }

  // ---------------------------------------------------------------------------
  // The result
  // ---------------------------------------------------------------------------

  /** The result event: success with the device's address, first TCP port,
      name, model and MAC, or failure with sentinel values. */
  datatype Report = Report(success: bool, ip: string, tcp1: string, name: string, model: string, mac: string)

  /** The failure event: address and port are `str(-1)`, the rest empty. */
  function FailureReport(): (r: Report)
    ensures !r.success && r.name == "" && r.model == "" && r.mac == ""
    ensures r.ip == IntToString(-1) && r.tcp1 == IntToString(-1)
  {
    Report(false, "-1", "-1", "", "", "")
  }

  const ReportKeys: set<string> := {"deviceIP", "deviceTCP1", "deviceUserName", "deviceModel", "deviceMac"}

  /** The event after the sender loop ends because the listener signalled:
      success when a device address was stored; `None` is the KeyError a
      partly filled dictionary would raise. */
  function FinalReport(found: map<string, string>): Option<Report> {
    if "deviceIP" !in found then Some(FailureReport())
    else if ReportKeys <= found.Keys then
      Some(Report(true, found["deviceIP"], found["deviceTCP1"], found["deviceUserName"], found["deviceModel"], found["deviceMac"]))
    else None
  }

  /** When the listener detects a device, the reported event carries the
      answer's fields 6, 14, 17 and 5 and the value part of field 19. */
  lemma DetectionReported(found: map<string, string>, start: real, polls: seq<Poll>, i: nat)
    requires DetectedAt(polls, start, i)
    ensures var fields := Split(polls[i].datagram.value, ',');
      && |fields| > 19
      && var kv := Split(fields[19], '=');
      && |kv| >= 2
      && FinalReport(Listen(found, start, polls).found)
         == Some(Report(true, fields[6], fields[14], fields[17], kv[1], fields[5]))
  {
    ListenDetects(found, start, polls, i);
    var fields := Split(polls[i].datagram.value, ',');
    assert FieldValue(fields, Extractors[5]).Some?;
    assert FieldValue(fields, Extractors[0]).Some? && FieldValue(fields, Extractors[1]).Some?;
    assert FieldValue(fields, Extractors[2]).Some? && FieldValue(fields, Extractors[4]).Some?;
  }
}
