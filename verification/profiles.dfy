/**
  The profile validator (`readConfig` in `OmronVTInterfaceModule/ovtimfunctions.py`),
  over a configuration that has already been loaded from JSON.

  The result is a return code (0 no problem, 1 no usable active profile,
  2 some scanner side is misconfigured, 3 the file cannot be used), the
  stored profiles by name, the active profile's name, and whether its bottom
  and top scanners are enabled. A side is configured either for Ethernet
  (an IP address and a TCP port) or for RS232 (a device name and the serial
  line settings); a side that fails its checks is stored disabled.

  A stored profile is a record of its two sides; `Dict` gives the flat
  dictionary the program builds, keyed by `possibleIniValues` plus the two
  enabled flags. The address parser of Python's `ipaddress` and pyserial's
  tables of accepted line settings are parameters (`Host`).
 */
module ProfileConfig {
  import opened Optional
  import opened Text
  import OvtimConfig

  // ---------------------------------------------------------------------------
  // Loaded JSON values and the Python conversions applied to them
  // ---------------------------------------------------------------------------

  /** A scalar JSON value as `json.load` returns it (floats, lists and nested
      objects are not modelled). */
  datatype Value = VNull | VBool(b: bool) | VInt(i: int) | VStr(s: string)

  /** Python's `str(v)`. */
  function Str(v: Value): string {
    match v
    case VNull => "None"
    case VBool(b) => if b then "True" else "False"
    case VInt(i) => IntToString(i)
    case VStr(s) => s
  }

  /** Python's `int(v)`; `None` where it raises (`int(None)`, a string that is
      not a decimal literal). */
  function PyInt(v: Value): Option<int> {
    match v
    case VNull => None
    case VBool(b) => Some(if b then 1 else 0)
    case VInt(i) => Some(i)
    case VStr(s) => ParseInt(s)
  }

  /** `int(str(n))` gives back `n`: a port or line setting stored as text is
      read as the number it spells. */
  lemma StrOfIntRoundTrip(n: int)
    ensures PyInt(VStr(Str(VInt(n)))) == Some(n)
  {
    ParseIntOfDecimal(n);
  }

  /** What the host's libraries accept: `ipaddress.ip_address` and pyserial's
      `BAUDRATES`, `BYTESIZES`, integral `STOPBITS` and `PARITIES`. */
  datatype Host = Host(
    isIpAddress: Value -> bool,
    baudRates: set<int>,
    byteSizes: set<int>,
    stopBits: set<int>,
    parities: set<string>)

  // ---------------------------------------------------------------------------
  // One scanner side
  // ---------------------------------------------------------------------------

  type Fields = map<string, Value>

  /** The ten settings of one scanner side, in the order of `SideFields`. */
  datatype SideConfig = SideConfig(
    model: Value, name: Value, mac: Value, commtype: Value, ip: Value,
    port: Value, baud: Value, bytesize: Value, stopbit: Value, parity: Value)

  const MinPort: int := 1
  const MaxPort: int := 65535
  const OtherScanner: string := "Other Scanner"

  /** `int(v)` succeeds and lands in the set. */
  predicate IntIn(v: Value, allowed: set<int>) {
    PyInt(v).Some? && PyInt(v).value in allowed
  }

  /** Every comm type other than (case-insensitively) `rs232` means Ethernet. */
  predicate IsSerial(commtype: Value) {
    Lower(Str(commtype)) == "rs232"
  }

  /** A TCP port: `int(v)` succeeds and lands in 1..65535. */
  predicate PortOk(port: Value) {
    PyInt(port).Some? && MinPort <= PyInt(port).value <= MaxPort
  }

  /** Ethernet settings: a parsable address and a TCP port. */
  predicate EthernetOk(host: Host, s: SideConfig) {
    host.isIpAddress(s.ip) && PortOk(s.port)
  }

  /** A serial device name: starts with `com` or contains `tty`, ignoring case. */
  predicate SerialPortName(port: Value) {
    var s := Lower(Str(port));
    StartsWith(s, "com") || Contains(s, "tty")
  }

  /** Serial settings: the device name and each line setting is one pyserial accepts. */
  predicate SerialOk(host: Host, s: SideConfig) {
    && SerialPortName(s.port)
    && IntIn(s.baud, host.baudRates)
    && IntIn(s.bytesize, host.byteSizes)
    && IntIn(s.stopbit, host.stopBits)
    && Str(s.parity) in host.parities
  }

  /** A model the configuration recognises, compared lower-cased. */
  predicate KnownModel(model: Value) {
    Lower(Str(model)) in OvtimConfig.PossibleModelValues
  }

  /** Whether one side passes all checks of its comm type. */
  predicate SideValid(host: Host, s: SideConfig) {
    if IsSerial(s.commtype) then SerialOk(host, s) else EthernetOk(host, s)
  }

  datatype SideChecked = SideChecked(config: SideConfig, enabled: bool)

  /** The outcomes of the separate checks the code runs for one side, in its
      order: address and port for Ethernet; device name, baud rate, byte
      size, stop bits and parity for RS232. */
  function SideChecks(host: Host, s: SideConfig): seq<bool> {
    if IsSerial(s.commtype) then
      [SerialPortName(s.port), IntIn(s.baud, host.baudRates), IntIn(s.bytesize, host.byteSizes),
       IntIn(s.stopbit, host.stopBits), Str(s.parity) in host.parities]
    else
      [host.isIpAddress(s.ip), PortOk(s.port)]
  }

  /** A side passes every one of its checks exactly when it is valid. */
  lemma SideChecksAllPass(host: Host, s: SideConfig)
    ensures (forall k :: 0 <= k < |SideChecks(host, s)| ==> SideChecks(host, s)[k]) <==> SideValid(host, s)
  {
    var cs := SideChecks(host, s);
    if IsSerial(s.commtype) {
      assert cs[0] && cs[1] && cs[2] && cs[3] && cs[4] <==> SerialOk(host, s);
    } else {
      assert cs[0] && cs[1] <==> EthernetOk(host, s);
    }
  }

  /** Each failing check clears the enabled flag; a passing one leaves it. */
  function ApplyChecks(acc: SideChecked, checks: seq<bool>): (r: SideChecked)
    ensures r.config == acc.config
    ensures r.enabled <==> acc.enabled && forall k :: 0 <= k < |checks| ==> checks[k]
    decreases |checks|
  {
    if |checks| == 0 then acc
    else ApplyChecks(if checks[0] then acc else acc.(enabled := false), checks[1..])
  }

  /** The checks of one side as the code runs them: the flag starts set, a
      comm type other than `rs232` is rewritten to "ethernet", each failing
      check clears the flag, and an unknown model is replaced by "Other
      Scanner". The side ends enabled exactly when it is valid, and nothing
      but the comm type and the model changes. */
  function ValidateSide(host: Host, s: SideConfig): (r: SideChecked)
    ensures r.enabled <==> SideValid(host, s)
    ensures r.config.commtype == if IsSerial(s.commtype) then s.commtype else VStr("ethernet")
    ensures r.config.model == if KnownModel(s.model) then s.model else VStr(OtherScanner)
    ensures r.config.(commtype := s.commtype, model := s.model) == s
  {
    var start := if IsSerial(s.commtype) then s else s.(commtype := VStr("ethernet"));
    var checked := ApplyChecks(SideChecked(start, true), SideChecks(host, s));
    SideChecksAllPass(host, s);
    var model := checked.config.model;
    checked.(config := checked.config.(model := if KnownModel(model) then model else VStr(OtherScanner)))
  }

  lemma OtherScannerUnknown()
    ensures !KnownModel(VStr(OtherScanner))
  {
    assert Lower(OtherScanner) == "other scanner";
  }

  lemma EthernetIsNotSerial()
    ensures !IsSerial(VStr("ethernet"))
  {
    assert Lower("ethernet") == "ethernet";
  }

  /** A validated side is in normal form: its comm type is serial or exactly
      "ethernet", and its model is a known one or exactly "Other Scanner". */
  lemma ValidatedSideNormal(host: Host, s: SideConfig)
    ensures var c := ValidateSide(host, s).config;
      && (IsSerial(c.commtype) || c.commtype == VStr("ethernet"))
      && (KnownModel(c.model) || c.model == VStr(OtherScanner))
  {
  }

  /** Validating a side twice gives what validating it once gave: the
      rewritten comm type and model pass their own checks unchanged. */
  lemma ValidateSideIdempotent(host: Host, s: SideConfig)
    ensures ValidateSide(host, ValidateSide(host, s).config) == ValidateSide(host, s)
  {
    OtherScannerUnknown();
    EthernetIsNotSerial();
  }

  /** An Ethernet side whose address is accepted is enabled exactly when its
      port, written as decimal text, is in 1..65535. */
  lemma EthernetPortAsText(host: Host, s: SideConfig, n: int)
    requires !IsSerial(s.commtype) && host.isIpAddress(s.ip)
    requires s.port == VStr(IntToString(n))
    ensures ValidateSide(host, s).enabled <==> 1 <= n <= 65535
  {
    ParseIntOfDecimal(n);
  }

  // ---------------------------------------------------------------------------
  // One profile
  // ---------------------------------------------------------------------------

  /** A profile key's value, `""` when the profile does not have it. */
  function Get(raw: Fields, key: string): Value {
    if key in raw then raw[key] else VStr("")
  }

  /** The two scanner roles. */
  datatype Role = BottomScanner | TopScanner

  /** Where a role's ten keys start in `possibleIniValues`. */
  function Base(role: Role): nat {
    match role
    case BottomScanner => 0
    case TopScanner => |OvtimConfig.SideFields|
  }

  /** The key of the `i`-th side setting of a role: `bs…` or `ts…`. */
  function KeyAt(role: Role, i: nat): string
    requires i < |OvtimConfig.SideFields|
  {
    OvtimConfig.PossibleIniValues[Base(role) + i]
  }

  /** The ten values one side reads from a profile, in the order of
      `possibleIniValues`; an absent key reads as `""`. */
  function SideOf(raw: Fields, role: Role): SideConfig {
    SideConfig(
      Get(raw, KeyAt(role, 0)), Get(raw, KeyAt(role, 1)), Get(raw, KeyAt(role, 2)),
      Get(raw, KeyAt(role, 3)), Get(raw, KeyAt(role, 4)), Get(raw, KeyAt(role, 5)),
      Get(raw, KeyAt(role, 6)), Get(raw, KeyAt(role, 7)), Get(raw, KeyAt(role, 8)),
      Get(raw, KeyAt(role, 9)))
  }

  /** The dictionary entries of one side. */
  function SideView(s: SideConfig, role: Role): Fields {
    map[
      KeyAt(role, 0) := s.model, KeyAt(role, 1) := s.name, KeyAt(role, 2) := s.mac,
      KeyAt(role, 3) := s.commtype, KeyAt(role, 4) := s.ip, KeyAt(role, 5) := s.port,
      KeyAt(role, 6) := s.baud, KeyAt(role, 7) := s.bytesize, KeyAt(role, 8) := s.stopbit,
      KeyAt(role, 9) := s.parity]
  }

  /** A profile as stored: each side validated, with its enabled flag. */
  datatype StoredProfile = StoredProfile(bottom: SideConfig, bottomEnabled: bool, top: SideConfig, topEnabled: bool)

  function Flag(enabled: bool): Value {
    VInt(if enabled then 1 else 0)
  }

  /** The flat dictionary of a stored profile. */
  function Dict(sp: StoredProfile): Fields {
    SideView(sp.bottom, BottomScanner) + SideView(sp.top, TopScanner)
      + map["bsenabled" := Flag(sp.bottomEnabled), "tsenabled" := Flag(sp.topEnabled)]
  }

  /** The keys of `possibleIniValues`. */


  /** Checking a profile: the side values are read (absent ones as `""`),
      then the bottom and the top side are validated. */
  function CheckProfile(host: Host, raw: Fields): (r: StoredProfile)
    ensures r.bottomEnabled <==> SideValid(host, SideOf(raw, BottomScanner))
    ensures r.topEnabled <==> SideValid(host, SideOf(raw, TopScanner))
  {
    var b := ValidateSide(host, SideOf(raw, BottomScanner));
    var t := ValidateSide(host, SideOf(raw, TopScanner));
    StoredProfile(b.config, b.enabled, t.config, t.enabled)
  }

  /** Both sides of the profile pass their checks. */
  ghost predicate ProfileValid(host: Host, raw: Fields) {
    SideValid(host, SideOf(raw, BottomScanner)) && SideValid(host, SideOf(raw, TopScanner))
  }

  // ---------------------------------------------------------------------------
  // The whole configuration
  // ---------------------------------------------------------------------------

  /** One element of the `profiles` list: its `profilename` (absent or a
      string) and its other keys. */
  datatype ProfileEntry = ProfileEntry(name: Option<string>, fields: Fields)

  /** The `main` section, with its optional `activeProfile`. */
  datatype MainSection = MainSection(activeProfile: Option<string>)

  /** The loaded file: the `profiles` list and the `main` section, each possibly absent. */
  datatype ConfigFile = ConfigFile(profiles: Option<seq<ProfileEntry>>, main: Option<MainSection>)

  datatype ConfigResult =
    | Crashed   // an unnamed profile reached outside any try-block: the KeyError propagates
    | Read(code: nat, profiles: map<string, StoredProfile>, active: string, bottomEnabled: bool, topEnabled: bool)

  /** The early-exit result: code 3, nothing stored, nothing enabled. */
  const Unusable: ConfigResult := Read(3, map[], "", false, false)

  predicate AllNamed(ps: seq<ProfileEntry>) {
    forall k :: 0 <= k < |ps| ==> ps[k].name.Some?
  }

  /** Some profile is called `a`. */
  predicate NameListed(ps: seq<ProfileEntry>, a: string)
    requires AllNamed(ps)
  {
    exists k :: 0 <= k < |ps| && ps[k].name.value == a
  }

  /** The names of the profiles. */
  ghost function NamesOf(ps: seq<ProfileEntry>): set<string>
    requires AllNamed(ps)
  {
    set k | 0 <= k < |ps| :: ps[k].name.value
  }

  /** The first non-empty profile name, or `""` when there is none. */
  function DefaultActive(ps: seq<ProfileEntry>): (a: string)
    requires AllNamed(ps)
    ensures |ps| > 0 ==> a in NamesOf(ps)
    ensures a != "" ==> a in NamesOf(ps)
    decreases |ps|
  {
    if |ps| == 0 then ""
    else if ps[0].name.value != "" then ps[0].name.value
    else
      var a := DefaultActive(ps[1..]);
      assert forall n :: n in NamesOf(ps[1..]) ==> n in NamesOf(ps) by {
        assert forall k :: 0 <= k < |ps| - 1 ==> ps[1..][k] == ps[k + 1];
      }
      assert a == "" ==> a in NamesOf(ps);
      a
  }

  /** Both sides of a stored profile are enabled. */
  predicate Passes(sp: StoredProfile) {
    sp.bottomEnabled && sp.topEnabled
  }

  /** The per-profile check the loop applies. */
  type Checker = Fields -> StoredProfile

  /** The validator's check for the given host. */
  function Checks(host: Host): Checker {
    raw => CheckProfile(host, raw)
  }

  ghost predicate AllPass(check: Checker, ps: seq<ProfileEntry>) {
    forall k :: 0 <= k < |ps| ==> Passes(check(ps[k].fields))
  }

  /** Every profile of the file has both sides valid. */
  ghost predicate AllValid(host: Host, ps: seq<ProfileEntry>) {
    forall k :: 0 <= k < |ps| ==> ProfileValid(host, ps[k].fields)
  }

  lemma AllPassIsAllValid(host: Host, ps: seq<ProfileEntry>)
    ensures AllPass(Checks(host), ps) <==> AllValid(host, ps)
  {
    assert forall raw :: Checks(host)(raw) == CheckProfile(host, raw);
  }

  /** The state the profile loop carries. */
  datatype Acc = Acc(code: nat, profiles: map<string, StoredProfile>, active: string, bottom: bool, top: bool)

  /** The flags are those stored for the active profile, once it is stored. */
  ghost predicate FlagsAgree(acc: Acc) {
    acc.active in acc.profiles ==>
      acc.bottom == acc.profiles[acc.active].bottomEnabled && acc.top == acc.profiles[acc.active].topEnabled
  }

  /** One pass of the profile loop: the profile is checked and stored under
      its name (replacing an earlier one of that name), a failed side turns
      the code into 2, an empty active name becomes this profile's name, and
      the flags follow this profile if it bears the active name. */
  function StepAcc(check: Checker, e: ProfileEntry, acc: Acc): Acc
    requires e.name.Some?
  {
    var name := e.name.value;
    var c := check(e.fields);
    var active := if acc.active == "" then name else acc.active;
    Acc(
      if Passes(c) then acc.code else 2,
      acc.profiles[name := c],
      active,
      if name == active then c.bottomEnabled else acc.bottom,
      if name == active then c.topEnabled else acc.top)
  }

  /** The profile loop over the whole list. */
  function StoreAll(check: Checker, ps: seq<ProfileEntry>, acc: Acc): (r: Acc)
    requires AllNamed(ps)
    ensures r.profiles.Keys == acc.profiles.Keys + NamesOf(ps)
    ensures r.code == if AllPass(check, ps) then acc.code else 2
    ensures r.active == if acc.active != "" then acc.active else DefaultActive(ps)
    decreases |ps|
  {
    if |ps| == 0 then acc
    else
      var r := StoreAll(check, ps[1..], StepAcc(check, ps[0], acc));
      NamesOfFirst(ps);
      AllPassFirst(check, ps);
      r
  }

  lemma NamesOfFirst(ps: seq<ProfileEntry>)
    requires |ps| > 0 && AllNamed(ps)
    ensures AllNamed(ps[1..])
    ensures NamesOf(ps) == {ps[0].name.value} + NamesOf(ps[1..])
  {
    assert forall k :: 0 <= k < |ps| - 1 ==> ps[1..][k] == ps[k + 1];
  }

  lemma AllPassFirst(check: Checker, ps: seq<ProfileEntry>)
    requires |ps| > 0
    ensures AllPass(check, ps) <==> Passes(check(ps[0].fields)) && AllPass(check, ps[1..])
  {
    var rest := ps[1..];
    if AllPass(check, ps) {
      forall k | 0 <= k < |rest|
        ensures Passes(check(rest[k].fields))
      {
        assert rest[k] == ps[k + 1];
      }
    }
    if Passes(check(ps[0].fields)) && AllPass(check, rest) {
      forall k | 0 <= k < |ps|
        ensures Passes(check(ps[k].fields))
      {
        if k > 0 {
          assert ps[k] == rest[k - 1];
        }
      }
    }
  }

  /** Throughout the loop, the returned flags are those of the stored
      profile that bears the active name. */
  lemma {:induction false} StoreAllFlagsAgree(check: Checker, ps: seq<ProfileEntry>, acc: Acc)
    requires AllNamed(ps) && FlagsAgree(acc)
    ensures FlagsAgree(StoreAll(check, ps, acc))
    decreases |ps|
  {
    if |ps| > 0 {
      var next := StepAcc(check, ps[0], acc);
      assert StoreAll(check, ps, acc) == StoreAll(check, ps[1..], next);
      assert FlagsAgree(next);
      StoreAllFlagsAgree(check, ps[1..], next);
    }
  }

  /** Profile `k` is the last one bearing its name. */
  ghost predicate LastOfName(ps: seq<ProfileEntry>, k: int) {
    0 <= k < |ps| && forall j :: k < j < |ps| ==> ps[j].name != ps[k].name
  }

  /** The loop leaves the profiles it does not name alone, and stores under
      each name the check of the last profile bearing it. */
  lemma {:induction false} StoreAllKeepsLast(check: Checker, ps: seq<ProfileEntry>, acc: Acc)
    requires AllNamed(ps)
    ensures var r := StoreAll(check, ps, acc);
      && (forall n :: n in acc.profiles && n !in NamesOf(ps) ==> r.profiles[n] == acc.profiles[n])
      && (forall k :: LastOfName(ps, k) ==> r.profiles[ps[k].name.value] == check(ps[k].fields))
    decreases |ps|
  {
    if |ps| > 0 {
      var next := StepAcc(check, ps[0], acc);
      var rest := ps[1..];
      var r := StoreAll(check, ps, acc);
      assert r == StoreAll(check, rest, next);
      NamesOfFirst(ps);
      StoreAllKeepsLast(check, rest, next);
      forall k | LastOfName(ps, k)
        ensures r.profiles[ps[k].name.value] == check(ps[k].fields)
      {
        if k == 0 {
          assert ps[0].name.value !in NamesOf(rest);
        } else {
          assert rest[k - 1] == ps[k];
          assert LastOfName(rest, k - 1) by {
            forall j | k - 1 < j < |rest|
              ensures rest[j].name != rest[k - 1].name
            {
              assert rest[j] == ps[j + 1];
            }
          }
        }
      }
    }
  }

  /** The loop state `readConfig` starts from once the early checks pass:
      code 0 with the named active profile, or code 1 with none. */
  function StartAcc(ps: seq<ProfileEntry>, activeProfile: Option<string>): (acc: Acc)
    requires AllNamed(ps)
    ensures acc.profiles == map[] && acc.code <= 1
  {
    match activeProfile
    case Some(a) =>
      if NameListed(ps, a) then Acc(0, map[], a, false, false) else Acc(1, map[], "", false, false)
    case None => Acc(1, map[], "", false, false)
  }

  /** `readConfig` on a loaded file. */
  function ReadConfig(host: Host, cfg: ConfigFile): (r: ConfigResult)
    // the early exits: nothing is stored and nothing is enabled
    ensures r.Read? && r.code == 3 ==> r == Unusable
    ensures r == Unusable <==>
      || cfg.profiles.None?
      || |cfg.profiles.value| <= 1
      || cfg.main.None?
      || (cfg.main.value.activeProfile.Some? && !AllNamed(cfg.profiles.value))
    // without an active profile the unnamed profile is reached in the loop itself
    ensures r.Crashed? <==>
      && cfg.profiles.Some? && |cfg.profiles.value| > 1 && cfg.main.Some?
      && cfg.main.value.activeProfile.None? && !AllNamed(cfg.profiles.value)
    ensures r.Read? ==> r.code <= 3
  {
    match cfg.profiles
    case None => Unusable
    case Some(ps) =>
      if |ps| <= 1 then Unusable
      else
        match cfg.main
        case None => Unusable
        case Some(main) =>
          if AllNamed(ps) then Finish(StoreAll(Checks(host), ps, StartAcc(ps, main.activeProfile)))
          else if main.activeProfile.Some? then Unusable
          else Crashed
  }

  function Finish(acc: Acc): (r: ConfigResult)
    requires acc.code <= 2
    ensures r.Read? && r.code <= 2
  {
    Read(acc.code, acc.profiles, acc.active, acc.bottom, acc.top)
  }

  /** The file passes the early checks and every profile has a name. */
  ghost predicate Usable(cfg: ConfigFile) {
    && cfg.profiles.Some? && |cfg.profiles.value| > 1
    && cfg.main.Some?
    && AllNamed(cfg.profiles.value)
  }

  /** The main section names a profile that exists. */
  ghost predicate ActiveNamed(cfg: ConfigFile)
    requires Usable(cfg)
  {
    cfg.main.value.activeProfile.Some? && NameListed(cfg.profiles.value, cfg.main.value.activeProfile.value)
  }

  /** The code the loop starts from is 0 exactly when the main section
      names an existing profile. */
  lemma StartAccCode(cfg: ConfigFile)
    requires Usable(cfg)
    ensures StartAcc(cfg.profiles.value, cfg.main.value.activeProfile).code == if ActiveNamed(cfg) then 0 else 1
  {
  }

  lemma ReadConfigLoop(host: Host, cfg: ConfigFile)
    requires Usable(cfg)
    ensures ReadConfig(host, cfg) ==
      Finish(StoreAll(Checks(host), cfg.profiles.value, StartAcc(cfg.profiles.value, cfg.main.value.activeProfile)))
  {
  }

  /** Past the early exits, every profile is stored, under its name. */
  lemma ReadConfigStoresAll(host: Host, cfg: ConfigFile)
    requires Usable(cfg)
    ensures var r := ReadConfig(host, cfg);
      r.Read? && r.profiles.Keys == NamesOf(cfg.profiles.value)
  {
    ReadConfigLoop(host, cfg);
  }

  /** Past the early exits, the code is 2 exactly when some side of some
      profile is invalid, and otherwise 0 or 1 according to whether the main
      section names an existing profile. */
  lemma ReadConfigCodes(host: Host, cfg: ConfigFile)
    requires Usable(cfg)
    ensures var r := ReadConfig(host, cfg);
      var ps := cfg.profiles.value;
      && r.Read?
      && (r.code == 0 <==> AllValid(host, ps) && ActiveNamed(cfg))
      && (r.code == 1 <==> AllValid(host, ps) && !ActiveNamed(cfg))
      && (r.code == 2 <==> !AllValid(host, ps))
  {
    var ps := cfg.profiles.value;
    var acc := StartAcc(ps, cfg.main.value.activeProfile);
    var end := StoreAll(Checks(host), ps, acc);
    ReadConfigLoop(host, cfg);
    assert ReadConfig(host, cfg).code == end.code;
    StartAccCode(cfg);
    AllPassIsAllValid(host, ps);
  }

  /** The active profile is the one the main section names when it exists
      and is not empty, otherwise the first non-empty profile name; it is
      always a stored profile, and the returned flags are its enabled flags. */
  lemma ReadConfigActive(host: Host, cfg: ConfigFile)
    requires Usable(cfg)
    ensures var r := ReadConfig(host, cfg);
      var ps := cfg.profiles.value;
      var named := cfg.main.value.activeProfile;
      && r.Read?
      && r.active == (if ActiveNamed(cfg) && named.value != "" then named.value else DefaultActive(ps))
      && r.active in r.profiles
      && r.bottomEnabled == r.profiles[r.active].bottomEnabled
      && r.topEnabled == r.profiles[r.active].topEnabled
  {
    var ps := cfg.profiles.value;
    var acc := StartAcc(ps, cfg.main.value.activeProfile);
    ReadConfigLoop(host, cfg);
    StoreAllFlagsAgree(Checks(host), ps, acc);
    if ActiveNamed(cfg) {
      var a := cfg.main.value.activeProfile.value;
      var k :| 0 <= k < |ps| && ps[k].name.value == a;
      assert a in NamesOf(ps);
    }
  }

  /** When several profiles share a name, the last of them is the one stored. */
  lemma ReadConfigStoresLast(host: Host, cfg: ConfigFile, k: int)
    requires Usable(cfg) && LastOfName(cfg.profiles.value, k)
    ensures var r := ReadConfig(host, cfg);
      var e := cfg.profiles.value[k];
      r.Read? && r.profiles[e.name.value] == CheckProfile(host, e.fields)
  {
    var ps := cfg.profiles.value;
    ReadConfigLoop(host, cfg);
    StoreAllKeepsLast(Checks(host), ps, StartAcc(ps, cfg.main.value.activeProfile));
  }

  /** The ten bottom-side keys and the ten top-side keys: the two halves of
      `possibleIniValues`. */
  ghost const BottomKeySet: set<string> :=
    set k | k in OvtimConfig.PossibleIniValues[..|OvtimConfig.SideFields|]
  ghost const TopKeySet: set<string> :=
    set k | k in OvtimConfig.PossibleIniValues[|OvtimConfig.SideFields|..]

  /** The keys every stored profile has: those of `possibleIniValues` and the
      two enabled flags. */
  ghost const StoredKeys: set<string> := BottomKeySet + TopKeySet + {"bsenabled", "tsenabled"}

  /** The bottom keys are exactly `bs` followed by a side field. */
  lemma BottomKeySetSpelled()
    ensures forall k :: k in BottomKeySet <==>
      exists i :: 0 <= i < |OvtimConfig.SideFields| && k == OvtimConfig.Bottom + OvtimConfig.SideFields[i]
  {
    OvtimConfig.BottomKeys();
    var n := |OvtimConfig.SideFields|;
    var half := OvtimConfig.PossibleIniValues[..n];
    assert forall j :: 0 <= j < n ==> half[j] == OvtimConfig.Bottom + OvtimConfig.SideFields[j];
    assert forall k :: k in BottomKeySet <==> k in half;
  }

  /** The top keys are exactly `ts` followed by a side field. */
  lemma TopKeySetSpelled()
    ensures forall k :: k in TopKeySet <==>
      exists i :: 0 <= i < |OvtimConfig.SideFields| && k == OvtimConfig.Top + OvtimConfig.SideFields[i]
  {
    OvtimConfig.TopKeys();
    var n := |OvtimConfig.SideFields|;
    var half := OvtimConfig.PossibleIniValues[n..];
    assert forall j :: 0 <= j < n ==> half[j] == OvtimConfig.PossibleIniValues[j + n];
    assert forall j :: 0 <= j < n ==> half[j] == OvtimConfig.Top + OvtimConfig.SideFields[j];
    assert forall k :: k in TopKeySet <==> k in half;
  }

  /** The dictionary entries of a side, spelled out. */
  lemma SideViewLiteral(s: SideConfig, role: Role)
    ensures SideView(s, role) == match role
      case BottomScanner => map[
        "bsmodel" := s.model, "bsname" := s.name, "bsmac" := s.mac, "bscommtype" := s.commtype, "bsip" := s.ip,
        "bsport" := s.port, "bsbaud" := s.baud, "bsbytesize" := s.bytesize, "bsstopbit" := s.stopbit, "bsparity" := s.parity]
      case TopScanner => map[
        "tsmodel" := s.model, "tsname" := s.name, "tsmac" := s.mac, "tscommtype" := s.commtype, "tsip" := s.ip,
        "tsport" := s.port, "tsbaud" := s.baud, "tsbytesize" := s.bytesize, "tsstopbit" := s.stopbit, "tsparity" := s.parity]
  {
  }

  /** Every stored profile, as a dictionary, has exactly the keys of
      `possibleIniValues` plus the two enabled flags, stored as 1 or 0. */
  lemma DictKeys(sp: StoredProfile)
    ensures Dict(sp).Keys == StoredKeys
    ensures Dict(sp)["bsenabled"] == VInt(if sp.bottomEnabled then 1 else 0)
    ensures Dict(sp)["tsenabled"] == VInt(if sp.topEnabled then 1 else 0)
  {
    SideViewKeys(sp.bottom, BottomScanner);
    SideViewKeys(sp.top, TopScanner);
  }

  lemma SideViewKeys(s: SideConfig, role: Role)
    ensures SideView(s, role).Keys == if role.BottomScanner? then BottomKeySet else TopKeySet
  {
    SideViewLiteral(s, role);
  }

  /** Reading a side's values back out of its dictionary entries gives the side. */
  lemma SideViewRoundTrip(s: SideConfig, role: Role)
    ensures SideOf(SideView(s, role), role) == s
  {
    SideViewLiteral(s, role);
    SideOfLiteral(SideView(s, role), role);
  }

  /** The values a side reads, with its keys spelled out. */
  lemma SideOfLiteral(raw: Fields, role: Role)
    ensures SideOf(raw, role) == match role
      case BottomScanner =>
        SideConfig(Get(raw, "bsmodel"), Get(raw, "bsname"), Get(raw, "bsmac"), Get(raw, "bscommtype"), Get(raw, "bsip"), Get(raw, "bsport"), Get(raw, "bsbaud"), Get(raw, "bsbytesize"), Get(raw, "bsstopbit"), Get(raw, "bsparity"))
      case TopScanner =>
        SideConfig(Get(raw, "tsmodel"), Get(raw, "tsname"), Get(raw, "tsmac"), Get(raw, "tscommtype"), Get(raw, "tsip"), Get(raw, "tsport"), Get(raw, "tsbaud"), Get(raw, "tsbytesize"), Get(raw, "tsstopbit"), Get(raw, "tsparity"))
  {
  }

  /** The `i`-th setting of a side, in the order of `SideFields`. */
  function FieldAt(s: SideConfig, i: nat): Value
    requires i < |OvtimConfig.SideFields|
  {
    match i
    case 0 => s.model
    case 1 => s.name
    case 2 => s.mac
    case 3 => s.commtype
    case 4 => s.ip
    case 5 => s.port
    case 6 => s.baud
    case 7 => s.bytesize
    case 8 => s.stopbit
    case _ => s.parity
  }

  /** Two different settings, of the same side or not, have different keys,
      and none of them is an enabled flag. */
  lemma KeyAtDistinct(role: Role, i: nat, other: Role, j: nat)
    requires i < |OvtimConfig.SideFields| && j < |OvtimConfig.SideFields|
    ensures (role, i) != (other, j) ==> KeyAt(role, i) != KeyAt(other, j)
    ensures KeyAt(role, i) != "bsenabled" && KeyAt(role, i) != "tsenabled"
  {
    OvtimConfig.IniValuesDistinct();
    OvtimConfig.FlagKeysNotListed();
  }

  /** A side's `i`-th key holds its `i`-th setting. */
  lemma SideViewAt(s: SideConfig, role: Role, i: nat)
    requires i < |OvtimConfig.SideFields|
    ensures KeyAt(role, i) in SideView(s, role) && SideView(s, role)[KeyAt(role, i)] == FieldAt(s, i)
  {
    forall j | 0 <= j < |OvtimConfig.SideFields|
      ensures j != i ==> KeyAt(role, j) != KeyAt(role, i)
    {
      KeyAtDistinct(role, j, role, i);
    }
  }

  /** A key that is none of a side's keys is not in its dictionary entries. */
  lemma NotInSideView(s: SideConfig, role: Role, key: string)
    requires forall j :: 0 <= j < |OvtimConfig.SideFields| ==> key != KeyAt(role, j)
    ensures key !in SideView(s, role)
  {
  }

  /** In a stored profile's dictionary, a side's `i`-th key holds that side's `i`-th setting. */
  lemma DictAt(sp: StoredProfile, role: Role, i: nat)
    requires i < |OvtimConfig.SideFields|
    ensures var side := if role.BottomScanner? then sp.bottom else sp.top;
      KeyAt(role, i) in Dict(sp) && Dict(sp)[KeyAt(role, i)] == FieldAt(side, i)
  {
    var key := KeyAt(role, i);
    var other := if role.BottomScanner? then TopScanner else BottomScanner;
    forall j | 0 <= j < |OvtimConfig.SideFields|
      ensures key != KeyAt(other, j)
    {
      KeyAtDistinct(role, i, other, j);
    }
    KeyAtDistinct(role, i, role, i);
    var flags := map["bsenabled" := Flag(sp.bottomEnabled), "tsenabled" := Flag(sp.topEnabled)];
    assert key !in flags;
    if role.BottomScanner? {
      SideViewAt(sp.bottom, role, i);
      NotInSideView(sp.top, other, key);
    } else {
      SideViewAt(sp.top, role, i);
    }
  }

  /** What a profile stores under each of its twenty keys: the profile's own
      value, or `''` when it has none, except that the comm type is
      normalised to "ethernet" unless it is `rs232`, and an unknown model
      becomes "Other Scanner". */
  lemma StoredValue(host: Host, raw: Fields, role: Role, i: nat)
    requires i < |OvtimConfig.SideFields|
    ensures var key := KeyAt(role, i);
      var v := if key in raw then raw[key] else VStr("");
      var d := Dict(CheckProfile(host, raw));
      && key in d
      && d[key] == if i == 0 then (if KnownModel(v) then v else VStr(OtherScanner))
                   else if i == 3 then (if IsSerial(v) then v else VStr("ethernet"))
                   else v
  {
    var side := SideOf(raw, role);
    var sp := CheckProfile(host, raw);
    DictAt(sp, role, i);
    SideOfAt(raw, role, i);
    ValidatedFieldAt(host, side, i);
  }

  /** The `i`-th setting a side reads is the profile's value under its `i`-th key. */
  lemma SideOfAt(raw: Fields, role: Role, i: nat)
    requires i < |OvtimConfig.SideFields|
    ensures FieldAt(SideOf(raw, role), i) == Get(raw, KeyAt(role, i))
  {
    var s := SideOf(raw, role);
    if i < 5 {
      assert s.model == Get(raw, KeyAt(role, 0)) && s.name == Get(raw, KeyAt(role, 1));
    } else {
      assert s.parity == Get(raw, KeyAt(role, 9));
    }
  }

  /** Validation rewrites the model (setting 0) and the comm type (setting 3)
      and keeps every other setting. */
  lemma ValidatedFieldAt(host: Host, s: SideConfig, i: nat)
    requires i < |OvtimConfig.SideFields|
    ensures var v := FieldAt(s, i);
      FieldAt(ValidateSide(host, s).config, i)
        == if i == 0 then (if KnownModel(v) then v else VStr(OtherScanner))
           else if i == 3 then (if IsSerial(v) then v else VStr("ethernet"))
           else v
  {
    var c := ValidateSide(host, s).config;
    assert c.(commtype := s.commtype, model := s.model) == s;
  }
}
