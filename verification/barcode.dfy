/**
  The barcode handling of the scanner read loop (`readDataFromLan` in
  `OmronVTInterfaceModule/__init__.py`): each received line is normalised,
  rate-limited per scanner IP, classified as a new or a repeated barcode, and
  becomes the process-wide current barcode when accepted.

  Time is an abstract clock value `now` supplied with each line; the
  notification sent to the browser is represented by the returned outcome.
 */
module BarcodeDebounce {
  import opened Optional
  import opened Text
  import OvtimConfig

  type Byte = b: int | 0 <= b < 256

  // ---------------------------------------------------------------------------
  // Normalising a received line
  // ---------------------------------------------------------------------------

  ghost predicate IsAscii(raw: seq<Byte>) {
    forall i :: 0 <= i < |raw| ==> raw[i] < 128
  }

  /** `raw.decode('ascii')`; `None` is the UnicodeDecodeError raised for a byte above 127. */
  function DecodeAscii(raw: seq<Byte>): (r: Option<string>)
    ensures r.Some? <==> IsAscii(raw)
    ensures r.Some? ==> |r.value| == |raw| && forall i :: 0 <= i < |raw| ==> r.value[i] as int == raw[i]
  {
    if forall i :: 0 <= i < |raw| ==> raw[i] < 128 then
      Some(seq(|raw|, i requires 0 <= i < |raw| => raw[i] as char))
    else
      None
  }

  /** The characters markupsafe's `escape` replaces by an HTML entity. */
  predicate IsMarkup(c: char) {
    c == '&' || c == '<' || c == '>' || c == '\'' || c == '"'
  }

  function EscapeChar(c: char): string {
    match c
    case '&' => "&amp;"
    case '<' => "&lt;"
    case '>' => "&gt;"
    case '\'' => "&#39;"
    case '"' => "&#34;"
    case _ => [c]
  }

  /** markupsafe's `escape` applied to text: the result holds no tag or quote
      character, so it can be embedded in a page as is. */
  function Escape(s: string): (r: string)
    ensures forall i :: 0 <= i < |r| ==> r[i] != '<' && r[i] != '>' && r[i] != '\'' && r[i] != '"'
    ensures |r| >= |s|
    decreases |s|
  {
    if |s| == 0 then "" else EscapeChar(s[0]) + Escape(s[1..])
  }

  /** Escaping leaves a text unchanged exactly when it holds no markup character. */
  lemma {:induction false} EscapeIdentity(s: string)
    ensures Escape(s) == s <==> forall i :: 0 <= i < |s| ==> !IsMarkup(s[i])
    decreases |s|
  {
    if |s| > 0 {
      EscapeIdentity(s[1..]);
      if !IsMarkup(s[0]) {
        assert Escape(s) == [s[0]] + Escape(s[1..]);
        if Escape(s) == s {
          assert Escape(s[1..]) == s[1..];
        }
        if forall i :: 0 <= i < |s| ==> !IsMarkup(s[i]) {
          assert forall i :: 0 <= i < |s[1..]| ==> !IsMarkup(s[1..][i]);
          assert s == [s[0]] + s[1..];
        }
      } else {
        assert |EscapeChar(s[0])| > 1;
        assert |Escape(s)| > |s|;
      }
    }
  }

  /** `str(escape(raw.decode('ascii'))).strip()`, or `None` when decoding raises. */
  function Normalize(raw: seq<Byte>): (r: Option<string>)
    ensures r.Some? <==> IsAscii(raw)
    ensures r.Some? ==> IsTrimmed(r.value)
  {
    match DecodeAscii(raw)
    case None => None
    case Some(text) => Some(Strip(Escape(text)))
  }

  // ---------------------------------------------------------------------------
  // Per-scanner state and the debounce step
  // ---------------------------------------------------------------------------

  /** One entry of a scanner's history: the barcode and when it was (re)read. */
  datatype Entry = Entry(barcode: string, at: real)

  /** The per-IP record: a bounded history (a deque of maximum length 1), the
      start of the current rate-limit window, and whether the "too soon" log
      line has been written for that window. */
  datatype ScannerRecord = ScannerRecord(barcodes: seq<Entry>, timer: real, timerMsgFlag: bool)

  /** The maximum length of a scanner's history deque. */
  const HistoryCapacity: nat := 1

  /** The record created for a scanner seen for the first time: its window
      started 1000 s ago, so its first line is outside it. */
  function NewRecord(now: real): (r: ScannerRecord)
    ensures r.barcodes == [] && !r.timerMsgFlag
    ensures now - r.timer >= OvtimConfig.ScannerTimeLimit
  {
    ScannerRecord([], now - 1000.0, false)
  }

  function Last<T>(q: seq<T>): T
    requires |q| > 0
  {
    q[|q| - 1]
  }

  /** `deque.append` on a deque of maximum length `HistoryCapacity`: the
      oldest entries are dropped once it is full. */
  function PushBounded(q: seq<Entry>, e: Entry): (r: seq<Entry>)
    ensures |r| == if |q| < HistoryCapacity then |q| + 1 else HistoryCapacity
    ensures Last(r) == e
    ensures r[..|r| - 1] == q[|q| + 1 - |r|..]
  {
    var full := q + [e];
    if |full| <= HistoryCapacity then full else full[|full| - HistoryCapacity..]
  }

  datatype Tag = Info | Update

  datatype Verdict = TooSoon(logged: bool) | Accept(tag: Tag)

  datatype Debounced = Debounced(record: ScannerRecord, verdict: Verdict)

  /** One scanner's reaction to a normalised barcode read at `now`. */
  function Debounce(rec: ScannerRecord, barcode: string, now: real): (r: Debounced)
    // inside the window: rejected; only the log-suppression flag changes, and the
    // log line is written only for the first rejection of the window
    ensures r.verdict.TooSoon? <==> now - rec.timer < OvtimConfig.ScannerTimeLimit
    ensures r.verdict.TooSoon? ==>
      && r.record.barcodes == rec.barcodes && r.record.timer == rec.timer
      && r.record.timerMsgFlag && r.verdict.logged == !rec.timerMsgFlag
    // outside it: a new window starts now and the newest entry is this barcode
    ensures r.verdict.Accept? ==>
      && r.record.timer == now && !r.record.timerMsgFlag
      && |r.record.barcodes| > 0 && Last(r.record.barcodes) == Entry(barcode, now)
    // a repeat of the newest entry is an update, anything else is new information
    ensures r.verdict.Accept? ==>
      (r.verdict.tag == Update <==> |rec.barcodes| > 0 && Last(rec.barcodes).barcode == barcode)
    // the history never grows beyond one entry
    ensures |rec.barcodes| <= HistoryCapacity ==> |r.record.barcodes| <= HistoryCapacity
    ensures r.verdict.Accept? && |rec.barcodes| <= HistoryCapacity ==> r.record.barcodes == [Entry(barcode, now)]
  {
    if now - rec.timer < OvtimConfig.ScannerTimeLimit then
      Debounced(rec.(timerMsgFlag := true), TooSoon(!rec.timerMsgFlag))
    else
      var e := Entry(barcode, now);
      if |rec.barcodes| > 0 && Last(rec.barcodes).barcode == barcode then
        Debounced(ScannerRecord(rec.barcodes[..|rec.barcodes| - 1] + [e], now, false), Accept(Update))
      else
        Debounced(ScannerRecord(PushBounded(rec.barcodes, e), now, false), Accept(Info))
  }

  // ---------------------------------------------------------------------------
  // The whole bridge: all scanners plus the current barcode
  // ---------------------------------------------------------------------------

  /** Scanner records keyed by IP alone, and the process-wide current barcode
      with the time it was accepted. */
  datatype Bridge = Bridge(scanners: map<string, ScannerRecord>, current: string, currentAt: real)

  /** The state at start-up: no scanner seen, current barcode empty at time 0. */
  function InitialBridge(): Bridge {
    Bridge(map[], OvtimConfig.InitialBarcode, OvtimConfig.InitialBarcodeTimestamp)
  }

  /** What happened to one received line: too short to look at, decoding raised
      (which ends the read loop), rejected inside the rate-limit window, or
      accepted with a notification tag. */
  datatype LineOutcome = Ignored | Aborted | Rejected(logged: bool) | Accepted(tag: Tag, barcode: string)

  datatype Step = Step(bridge: Bridge, outcome: LineOutcome)

  /** The handling of a normalised barcode from the scanner at `ip`. */
  function Handle(b: Bridge, ip: string, barcode: string, now: real): (r: Step)
    ensures r.outcome.Rejected? || r.outcome.Accepted?
    // the first line from an unseen IP is always accepted as new information
    ensures ip !in b.scanners ==> r.outcome == Accepted(Info, barcode)
  {
    var rec := if ip in b.scanners then b.scanners[ip] else NewRecord(now);
    var d := Debounce(rec, barcode, now);
    var scanners := b.scanners[ip := d.record];
    match d.verdict
    case TooSoon(logged) => Step(b.(scanners := scanners), Rejected(logged))
    case Accept(tag) => Step(Bridge(scanners, barcode, now), Accepted(tag, barcode))
  }

  /** Exactly the record of `ip` is created or updated, and its history stays
      within the deque's bound. */
  lemma HandleScanners(b: Bridge, ip: string, barcode: string, now: real)
    ensures var r := Handle(b, ip, barcode, now);
      && r.bridge.scanners.Keys == b.scanners.Keys + {ip}
      && (forall x :: x in b.scanners && x != ip ==> r.bridge.scanners[x] == b.scanners[x])
      && (ip in b.scanners && |b.scanners[ip].barcodes| <= HistoryCapacity ==> |r.bridge.scanners[ip].barcodes| <= HistoryCapacity)
      && (ip !in b.scanners ==> |r.bridge.scanners[ip].barcodes| <= HistoryCapacity)
  {
  }

  /** A rejection happens only inside the window of a known scanner, and leaves
      its history, its window and the current barcode alone. */
  lemma HandleRejected(b: Bridge, ip: string, barcode: string, now: real)
    requires Handle(b, ip, barcode, now).outcome.Rejected?
    ensures var r := Handle(b, ip, barcode, now);
      && ip in b.scanners
      && now - b.scanners[ip].timer < OvtimConfig.ScannerTimeLimit
      && r.bridge.scanners[ip].barcodes == b.scanners[ip].barcodes
      && r.bridge.scanners[ip].timer == b.scanners[ip].timer
      && r.bridge.current == b.current && r.bridge.currentAt == b.currentAt
  {
  }

  /** An acceptance makes the barcode current as of now, restarts the window
      and puts the barcode at the end of the scanner's history. */
  lemma HandleAccepted(b: Bridge, ip: string, barcode: string, now: real)
    requires Handle(b, ip, barcode, now).outcome.Accepted?
    ensures var r := Handle(b, ip, barcode, now);
      && r.outcome.barcode == barcode
      && r.bridge.current == barcode && r.bridge.currentAt == now
      && r.bridge.scanners[ip].timer == now
      && |r.bridge.scanners[ip].barcodes| > 0
      && Last(r.bridge.scanners[ip].barcodes) == Entry(barcode, now)
  {
  }

  /** The read loop's handling of one line `raw` from the scanner at `ip`. */
  function OnLine(b: Bridge, ip: string, raw: seq<Byte>, now: real): (r: Step)
    // lines of at most one byte are skipped; undecodable ones abort; neither touches the state
    ensures r.outcome.Ignored? <==> |raw| <= 1
    ensures r.outcome.Aborted? <==> |raw| > 1 && !IsAscii(raw)
    ensures r.outcome.Ignored? || r.outcome.Aborted? ==> r.bridge == b
    // every other line is handled as its normalised barcode
    ensures |raw| > 1 && IsAscii(raw) ==> r == Handle(b, ip, Normalize(raw).value, now)
  {
    if |raw| <= 1 then Step(b, Ignored)
    else
      match Normalize(raw)
      case None => Step(b, Aborted)
      case Some(barcode) => Handle(b, ip, barcode, now)
  }

  /** A line that is not accepted leaves the current barcode and its time alone;
      an accepted one makes its barcode current as of the line's time. */
  lemma OnLineCurrent(b: Bridge, ip: string, raw: seq<Byte>, now: real)
    ensures var s := OnLine(b, ip, raw, now);
      && (!s.outcome.Accepted? ==> s.bridge.current == b.current && s.bridge.currentAt == b.currentAt)
      && (s.outcome.Accepted? ==> s.bridge.current == s.outcome.barcode && s.bridge.currentAt == now)
  {
    if |raw| > 1 && IsAscii(raw) {
      var h := Handle(b, ip, Normalize(raw).value, now);
      if h.outcome.Accepted? {
        HandleAccepted(b, ip, Normalize(raw).value, now);
      } else {
        HandleRejected(b, ip, Normalize(raw).value, now);
      }
    }
  }

  // ---------------------------------------------------------------------------
  // Sequences of lines
  // ---------------------------------------------------------------------------

  /** One line as it reaches the handler: the scanner's IP, the raw bytes, the clock. */
  datatype Input = Input(ip: string, raw: seq<Byte>, now: real)

  datatype Replayed = Replayed(bridge: Bridge, outcomes: seq<LineOutcome>)

  /** Lines handled one after another, in the order given. */
  function Replay(b: Bridge, inputs: seq<Input>): (r: Replayed)
    ensures |r.outcomes| == |inputs|
    decreases |inputs|
  {
    if |inputs| == 0 then Replayed(b, [])
    else
      var s := OnLine(b, inputs[0].ip, inputs[0].raw, inputs[0].now);
      var rest := Replay(s.bridge, inputs[1..]);
      Replayed(rest.bridge, [s.outcome] + rest.outcomes)
  }

  ghost predicate HistoriesBounded(b: Bridge) {
    forall ip :: ip in b.scanners ==> |b.scanners[ip].barcodes| <= HistoryCapacity
  }

  ghost predicate ClockMonotone(inputs: seq<Input>) {
    forall k, l :: 0 <= k <= l < |inputs| ==> inputs[k].now <= inputs[l].now
  }

  ghost predicate TimersNotAfter(b: Bridge, t: real) {
    forall ip :: ip in b.scanners ==> b.scanners[ip].timer <= t
  }

  /** However many lines arrive, no scanner's history holds more than one entry. */
  lemma {:induction false} HistoryStaysBounded(b: Bridge, inputs: seq<Input>)
    requires HistoriesBounded(b)
    ensures HistoriesBounded(Replay(b, inputs).bridge)
    decreases |inputs|
  {
    if |inputs| > 0 {
      var s := OnLine(b, inputs[0].ip, inputs[0].raw, inputs[0].now);
      OnLineKeepsHistoriesBounded(b, inputs[0]);
      HistoryStaysBounded(s.bridge, inputs[1..]);
    }
  }

  lemma OnLineKeepsHistoriesBounded(b: Bridge, input: Input)
    requires HistoriesBounded(b)
    ensures HistoriesBounded(OnLine(b, input.ip, input.raw, input.now).bridge)
  {
    var raw := input.raw;
    if |raw| > 1 && IsAscii(raw) {
      HandleScanners(b, input.ip, Normalize(raw).value, input.now);
    }
  }

  /** One step keeps every record's window start at or before the step's time,
      and no window start moves backwards. */
  lemma StepTimers(b: Bridge, input: Input)
    requires TimersNotAfter(b, input.now)
    ensures var s := OnLine(b, input.ip, input.raw, input.now);
      && TimersNotAfter(s.bridge, input.now)
      && b.scanners.Keys <= s.bridge.scanners.Keys
      && forall x :: x in b.scanners ==> b.scanners[x].timer <= s.bridge.scanners[x].timer
  {
    var raw := input.raw;
    if |raw| > 1 && IsAscii(raw) {
      HandleTimers(b, input.ip, Normalize(raw).value, input.now);
    }
  }

  /** `StepTimers` for a line that reaches the debounce step. */
  lemma HandleTimers(b: Bridge, ip: string, barcode: string, now: real)
    requires TimersNotAfter(b, now)
    ensures var h := Handle(b, ip, barcode, now);
      && TimersNotAfter(h.bridge, now)
      && b.scanners.Keys <= h.bridge.scanners.Keys
      && forall x :: x in b.scanners ==> b.scanners[x].timer <= h.bridge.scanners[x].timer
  {
    var rec := if ip in b.scanners then b.scanners[ip] else NewRecord(now);
    var d := Debounce(rec, barcode, now);
    var scanners := b.scanners[ip := d.record];
    assert d.record.timer == rec.timer || d.record.timer == now;
    assert Handle(b, ip, barcode, now).bridge.scanners == scanners;
    UpdatedTimers(b.scanners, ip, d.record, now, scanners);
  }

  /** Replacing one record by one whose window starts no earlier and not after
      `now` keeps every window start at or before `now`, and moves none back. */
  lemma UpdatedTimers(m: map<string, ScannerRecord>, ip: string, r: ScannerRecord, now: real, u: map<string, ScannerRecord>)
    requires forall x :: x in m ==> m[x].timer <= now
    requires r.timer <= now
    requires ip in m ==> m[ip].timer <= r.timer
    requires u == m[ip := r]
    ensures forall x :: x in u ==> u[x].timer <= now
    ensures forall x :: x in m ==> x in u && m[x].timer <= u[x].timer
  {
  }

  /** Once the record for `ip` has a window start at or after `t0`, every later
      acceptance for `ip` is at least the rate limit after `t0`. */
  lemma {:induction false} LaterAcceptanceSpaced(b: Bridge, inputs: seq<Input>, ip: string, t0: real, j: nat)
    requires ClockMonotone(inputs)
    requires |inputs| > 0 ==> TimersNotAfter(b, inputs[0].now)
    requires ip in b.scanners && b.scanners[ip].timer >= t0
    requires j < |inputs| && inputs[j].ip == ip && Replay(b, inputs).outcomes[j].Accepted?
    ensures inputs[j].now - t0 >= OvtimConfig.ScannerTimeLimit
    decreases j
  {
    var s := OnLine(b, inputs[0].ip, inputs[0].raw, inputs[0].now);
    StepTimers(b, inputs[0]);
    if j > 0 {
      ReplayShift(b, inputs, j);
      ClockMonotoneTail(inputs);
      LaterAcceptanceSpaced(s.bridge, inputs[1..], ip, t0, j - 1);
    } else {
      OnLineAcceptedRestarts(b, inputs[0]);
    }
  }

  /** Two accepted lines from the same IP are at least the rate limit apart,
      whatever other scanners send in between, provided the clock does not run
      backwards. */
  lemma {:induction false} AcceptedScansSpaced(b: Bridge, inputs: seq<Input>, i: nat, j: nat)
    requires ClockMonotone(inputs)
    requires |inputs| > 0 ==> TimersNotAfter(b, inputs[0].now)
    requires i < j < |inputs| && inputs[i].ip == inputs[j].ip
    requires Replay(b, inputs).outcomes[i].Accepted? && Replay(b, inputs).outcomes[j].Accepted?
    ensures inputs[j].now - inputs[i].now >= OvtimConfig.ScannerTimeLimit
    decreases i
  {
    var s := OnLine(b, inputs[0].ip, inputs[0].raw, inputs[0].now);
    StepTimers(b, inputs[0]);
    ReplayShift(b, inputs, j);
    ClockMonotoneTail(inputs);
    if i == 0 {
      OnLineAcceptedRestarts(b, inputs[0]);
      LaterAcceptanceSpaced(s.bridge, inputs[1..], inputs[0].ip, inputs[0].now, j - 1);
    } else {
      ReplayShift(b, inputs, i);
      AcceptedScansSpaced(s.bridge, inputs[1..], i - 1, j - 1);
    }
  }

  /** An accepted line restarts its scanner's window at the line's time. */
  lemma OnLineAcceptedRestarts(b: Bridge, input: Input)
    requires OnLine(b, input.ip, input.raw, input.now).outcome.Accepted?
    ensures var s := OnLine(b, input.ip, input.raw, input.now);
      input.ip in s.bridge.scanners && s.bridge.scanners[input.ip].timer == input.now
  {
    HandleScanners(b, input.ip, Normalize(input.raw).value, input.now);
    HandleAccepted(b, input.ip, Normalize(input.raw).value, input.now);
  }

  /** The outcome of line `k > 0` is the outcome of line `k - 1` of the rest,
      replayed from the state the first line left. */
  lemma ReplayShift(b: Bridge, inputs: seq<Input>, k: nat)
    requires 0 < k < |inputs|
    ensures var s := OnLine(b, inputs[0].ip, inputs[0].raw, inputs[0].now);
      Replay(b, inputs).outcomes[k] == Replay(s.bridge, inputs[1..]).outcomes[k - 1]
  {
  }

  /** The first line's outcome comes first, and the final state is that of the
      rest replayed from the state the first line left. */
  lemma ReplayHead(b: Bridge, inputs: seq<Input>)
    requires |inputs| > 0
    ensures var s := OnLine(b, inputs[0].ip, inputs[0].raw, inputs[0].now);
      && Replay(b, inputs).outcomes[0] == s.outcome
      && Replay(b, inputs).bridge == Replay(s.bridge, inputs[1..]).bridge
  {
  }

  /** A monotone clock stays monotone without its first line. */
  lemma ClockMonotoneTail(inputs: seq<Input>)
    requires |inputs| > 1 && ClockMonotone(inputs)
    ensures ClockMonotone(inputs[1..]) && inputs[0].now <= inputs[1].now
  {
    forall k, l | 0 <= k <= l < |inputs[1..]|
      ensures inputs[1..][k].now <= inputs[1..][l].now
    {
      assert inputs[1..][k] == inputs[k + 1] && inputs[1..][l] == inputs[l + 1];
    }
  }

  /** Last writer wins: after a run, the current barcode is the one accepted
      last, with that line's time. */
  lemma {:induction false} CurrentIsLastAccepted(b: Bridge, inputs: seq<Input>, j: nat)
    requires j < |inputs| && Replay(b, inputs).outcomes[j].Accepted?
    requires forall k :: j < k < |inputs| ==> !Replay(b, inputs).outcomes[k].Accepted?
    ensures Replay(b, inputs).bridge.current == Replay(b, inputs).outcomes[j].barcode
    ensures Replay(b, inputs).bridge.currentAt == inputs[j].now
    decreases j
  {
    var s := OnLine(b, inputs[0].ip, inputs[0].raw, inputs[0].now);
    var rest := Replay(s.bridge, inputs[1..]);
    ReplayHead(b, inputs);
    forall k | j <= k < |inputs[1..]|
      ensures !rest.outcomes[k].Accepted?
    {
      ReplayShift(b, inputs, k + 1);
    }
    if j == 0 {
      CurrentUnchangedWithoutAcceptance(s.bridge, inputs[1..]);
      OnLineCurrent(b, inputs[0].ip, inputs[0].raw, inputs[0].now);
    } else {
      ReplayShift(b, inputs, j);
      CurrentIsLastAccepted(s.bridge, inputs[1..], j - 1);
    }
  }

  /** A run in which nothing is accepted leaves the current barcode and its time as they were. */
  lemma {:induction false} CurrentUnchangedWithoutAcceptance(b: Bridge, inputs: seq<Input>)
    requires forall k :: 0 <= k < |inputs| ==> !Replay(b, inputs).outcomes[k].Accepted?
    ensures Replay(b, inputs).bridge.current == b.current
    ensures Replay(b, inputs).bridge.currentAt == b.currentAt
    decreases |inputs|
  {
    if |inputs| > 0 {
      var s := OnLine(b, inputs[0].ip, inputs[0].raw, inputs[0].now);
      var rest := Replay(s.bridge, inputs[1..]);
      ReplayHead(b, inputs);
      OnLineCurrent(b, inputs[0].ip, inputs[0].raw, inputs[0].now);
      forall k | 0 <= k < |inputs[1..]|
        ensures !rest.outcomes[k].Accepted?
      {
        ReplayShift(b, inputs, k + 1);
      }
      CurrentUnchangedWithoutAcceptance(s.bridge, inputs[1..]);
    }
  }

  // ---------------------------------------------------------------------------
  // A worked run
  // ---------------------------------------------------------------------------

  /** The bytes a scanner sends for an ASCII text: the text, then CR LF. */
  function Line(text: string): (raw: seq<Byte>)
    requires forall i :: 0 <= i < |text| ==> text[i] as int < 128
    ensures |raw| == |text| + 2 && IsAscii(raw)
  {
    seq(|text|, i requires 0 <= i < |text| => text[i] as int as Byte) + [13, 10]
  }

  ghost predicate IsAlnum(text: string) {
    forall i :: 0 <= i < |text| ==> 'A' <= text[i] <= 'Z' || '0' <= text[i] <= '9'
  }

  /** A line of capital letters and digits followed by CR LF normalises to
      the letters and digits. */
  lemma NormalizeExample(text: string)
    requires |text| > 0 && IsAlnum(text)
    ensures Normalize(Line(text)) == Some(text)
  {
    DecodeLine(text);
    EscapeLine(text);
    StripLine(text);
  }

  /** The bytes of such a line decode to the text followed by CR LF. */
  lemma DecodeLine(text: string)
    requires IsAlnum(text)
    ensures DecodeAscii(Line(text)) == Some(text + "\r\n")
  {
    var raw := Line(text);
    var d := DecodeAscii(raw).value;
    var e := text + "\r\n";
    forall i | 0 <= i < |d|
      ensures d[i] == e[i]
    {
      assert d[i] as int == raw[i];
      if i < |text| {
        assert raw[i] == text[i] as int;
      } else if i == |text| {
        assert raw[i] == 13;
      } else {
        assert raw[i] == 10;
      }
    }
    assert |d| == |e|;
    assert d == e;
  }

  /** Letters, digits, CR and LF are not markup, so escaping keeps them. */
  lemma EscapeLine(text: string)
    requires IsAlnum(text)
    ensures Escape(text + "\r\n") == text + "\r\n"
  {
    EscapeIdentity(text + "\r\n");
  }

  /** Stripping removes the trailing CR LF and nothing else. */
  lemma StripLine(text: string)
    requires |text| > 0 && IsAlnum(text)
    ensures Strip(text + "\r\n") == text
  {
    var d := text + "\r\n";
    assert TrimStart(d) == d;
    assert d[..|d| - 1] == text + "\r";
    assert (text + "\r")[..|text|] == text;
    assert TrimEnd(d) == TrimEnd(text + "\r");
    assert TrimEnd(text + "\r") == TrimEnd(text);
    assert TrimEnd(text) == text;
  }

  /** One scanner sends a line `la` reading `a` (say `ABC123` CR LF) at 0, 0.05
      and 0.2 s, then a line `lx` reading a different barcode `x` (say `XYZ999`)
      at 0.4 s: new, too soon (logged once), a repeat, and new again; the
      current barcode ends as `x` from 0.4 s. */
  lemma ExampleRun(ip: string, la: seq<Byte>, a: string, lx: seq<Byte>, x: string)
    requires |la| > 1 && Normalize(la) == Some(a)
    requires |lx| > 1 && Normalize(lx) == Some(x)
    requires a != x
    ensures var s1 := OnLine(InitialBridge(), ip, la, 0.0);
      var s2 := OnLine(s1.bridge, ip, la, 0.05);
      var s3 := OnLine(s2.bridge, ip, la, 0.2);
      var s4 := OnLine(s3.bridge, ip, lx, 0.4);
      && s1.outcome == Accepted(Info, a)
      && s2.outcome == Rejected(true)
      && s3.outcome == Accepted(Update, a)
      && s4.outcome == Accepted(Info, x)
      && s4.bridge.current == x && s4.bridge.currentAt == 0.4
  {
    var b1 := Bridge(map[ip := ScannerRecord([Entry(a, 0.0)], 0.0, false)], a, 0.0);
    var b2 := Bridge(map[ip := ScannerRecord([Entry(a, 0.0)], 0.0, true)], a, 0.0);
    var b3 := Bridge(map[ip := ScannerRecord([Entry(a, 0.2)], 0.2, false)], a, 0.2);
    var b4 := Bridge(map[ip := ScannerRecord([Entry(x, 0.4)], 0.4, false)], x, 0.4);
    ExampleStep1(ip, a);
    OnLineNormalized(InitialBridge(), Input(ip, la, 0.0), a, Step(b1, Accepted(Info, a)));
    ExampleStep2(ip, a);
    OnLineNormalized(b1, Input(ip, la, 0.05), a, Step(b2, Rejected(true)));
    ExampleStep3(ip, a);
    OnLineNormalized(b2, Input(ip, la, 0.2), a, Step(b3, Accepted(Update, a)));
    ExampleStep4(ip, a, x);
    OnLineNormalized(b3, Input(ip, lx, 0.4), x, Step(b4, Accepted(Info, x)));
  }

  /** A line that normalises to `text` is handled as `text`. */
  lemma OnLineNormalized(b: Bridge, input: Input, text: string, s: Step)
    requires |input.raw| > 1 && Normalize(input.raw) == Some(text)
    requires Handle(b, input.ip, text, input.now) == s
    ensures OnLine(b, input.ip, input.raw, input.now) == s
  {
  }

  // The four debounce steps of the worked run, one bridge state to the next.

  lemma ExampleStep1(ip: string, a: string)
    ensures Handle(InitialBridge(), ip, a, 0.0)
      == Step(Bridge(map[ip := ScannerRecord([Entry(a, 0.0)], 0.0, false)], a, 0.0), Accepted(Info, a))
  {
  }

  lemma ExampleStep2(ip: string, a: string)
    ensures Handle(Bridge(map[ip := ScannerRecord([Entry(a, 0.0)], 0.0, false)], a, 0.0), ip, a, 0.05)
      == Step(Bridge(map[ip := ScannerRecord([Entry(a, 0.0)], 0.0, true)], a, 0.0), Rejected(true))
  {
  }

  lemma ExampleStep3(ip: string, a: string)
    ensures Handle(Bridge(map[ip := ScannerRecord([Entry(a, 0.0)], 0.0, true)], a, 0.0), ip, a, 0.2)
      == Step(Bridge(map[ip := ScannerRecord([Entry(a, 0.2)], 0.2, false)], a, 0.2), Accepted(Update, a))
  {
  }

  lemma ExampleStep4(ip: string, a: string, x: string)
    requires a != x
    ensures Handle(Bridge(map[ip := ScannerRecord([Entry(a, 0.2)], 0.2, false)], a, 0.2), ip, x, 0.4)
      == Step(Bridge(map[ip := ScannerRecord([Entry(x, 0.4)], 0.4, false)], x, 0.4), Accepted(Info, x))
  {
  }
}
