/** The configuration of the tracker: its fields, and the validator and serializer of each of them. */
module ConfigValidation {
  import opened Prelude
  import opened TextUtils

  datatype Protocol = Http | Https
  datatype LogLevel = LevelNone | LevelError | LevelWarn | LevelInfo | LevelDebug
  datatype LogOutput = Uart | Trace | ToFile

  /** The conversions between text and `float`, atof and "%f"; any two functions. */
  datatype Floats = Floats(parse: string -> real, format: real -> string)

  /** t_Config, without the IMEI, which is not configured. */
  datatype Config = Config(
    deviceName: string, serverAddr: string, serverPort: string, protocol: Protocol,
    apn: string, apnUser: string, apnPass: string, logLevel: LogLevel, logOutput: LogOutput,
    gpsUere: real, gpsLogging: bool, gpsLogFile: string, gpsPrintPos: bool)

  datatype Param =
    | DeviceName | ServerAddr | ServerPort | ServerProtocol | Apn | ApnUser | ApnPass
    | Level | Output | GpsUere | GpsLogs | GpsLogFile | GpsPrintPos

  const MAX_SERVER_ADDR_LENGTH := 64
  const MAX_SERVER_PORT_LENGTH := 8
  const MAX_APN_LENGTH := 32
  const MAX_APN_USER_LENGTH := 32
  const MAX_DEVICE_NAME_LENGTH := 32
  const MAX_GPS_LOG_PATH_LENGTH := 128

  /** g_config_map, in its order. */
  const PARAMS: seq<Param> :=
    [DeviceName, ServerAddr, ServerPort, ServerProtocol, Apn, ApnUser, ApnPass, Level, Output, GpsUere, GpsLogs,
     GpsLogFile, GpsPrintPos]

  function Name(p: Param): string {
    match p
    case DeviceName => "device_name"
    case ServerAddr => "server"
    case ServerPort => "port"
    case ServerProtocol => "protocol"
    case Apn => "apn"
    case ApnUser => "apn_user"
    case ApnPass => "apn_pass"
    case Level => "log_level"
    case Output => "log_output"
    case GpsUere => "gps_uere"
    case GpsLogs => "gps_logging"
    case GpsLogFile => "gps_log_file"
    case GpsPrintPos => "gps_print_pos"
  }

  // ---------------------------------------------------------------- what a text means for a field

  /** The words a validator takes for a value, in any case. */
  predicate Says(value: string, words: seq<string>) {
    exists i :: 0 <= i < |words| && Lower(value) == Lower(words[i])
  }

  const OFF := ["0", "disable", "disabled", "false"]
  const ON := ["1", "enable", "enabled", "true"]

  function ProtocolOf(value: string): Option<Protocol> {
    if Says(value, ["http"]) then Some(Http) else if Says(value, ["https"]) then Some(Https) else None
  }

  function LevelOf(value: string): Option<LogLevel> {
    if Says(value, ["none"]) then Some(LevelNone)
    else if Says(value, ["error"]) then Some(LevelError)
    else if Says(value, ["warn", "warning"]) then Some(LevelWarn)
    else if Says(value, ["info"]) then Some(LevelInfo)
    else if Says(value, ["debug"]) then Some(LevelDebug)
    else None
  }

  function OutputOf(value: string): Option<LogOutput> {
    if Says(value, ["uart"]) then Some(Uart)
    else if Says(value, ["trace"]) then Some(Trace)
    else if Says(value, ["file"]) then Some(ToFile)
    else None
  }

  function SwitchOf(value: string): Option<bool> {
    if Says(value, OFF) then Some(false) else if Says(value, ON) then Some(true) else None
  }

  predicate AllDigits(s: string) {
    forall i :: 0 <= i < |s| ==> '0' <= s[i] <= '9'
  }

  /** The value of a run of digits. */
  function Decimal(s: string): nat
    requires AllDigits(s)
  {
    if s == "" then 0 else Decimal(s[..|s| - 1]) * 10 + (s[|s| - 1] as int - '0' as int)
  }

  /** What strtol reads behind the white space and the sign. */
  function WholeDigits(s: string): string {
    var t := TrimLeft(s);
    if t != "" && (t[0] == '-' || t[0] == '+') then t[1..] else t
  }

  /** strtol takes the whole text: white space, a sign, and at least one digit. */
  function WholeNumber(s: string): Option<int> {
    var t, digits := TrimLeft(s), WholeDigits(s);
    if digits == "" || !AllDigits(digits) then None
    else
      var n: int := Decimal(digits);
      Some(if t[0] == '-' then -n else n)
  }

  predicate PortText(s: string) {
    WholeNumber(s).Some? && 0 < WholeNumber(s).value <= 65535
  }

  /** strncpy into an array of `max` bytes with a terminator behind it. */
  function Clipped(s: string, max: nat): (r: string)
    requires max > 0
    ensures |r| < max && r <= s && (|s| < max ==> r == s)
  {
    if |s| < max then s else s[..max - 1]
  }

  /** The configuration after the validator of `p` has seen the text, if it accepts it. */
  function Accepted(c: Config, p: Param, value: string, floats: Floats): Option<Config> {
    match p
    case DeviceName => if 0 < |value| < MAX_DEVICE_NAME_LENGTH then Some(c.(deviceName := value)) else None
    case ServerAddr => if 0 < |value| < MAX_SERVER_ADDR_LENGTH then Some(c.(serverAddr := value)) else None
    case ServerPort => if PortText(value) then Some(c.(serverPort := Clipped(value, MAX_SERVER_PORT_LENGTH))) else None
    case ServerProtocol => if ProtocolOf(value).Some? then Some(c.(protocol := ProtocolOf(value).value)) else None
    case Apn => if 0 < |value| < MAX_APN_LENGTH then Some(c.(apn := value)) else None
    case ApnUser => if |value| < MAX_APN_USER_LENGTH then Some(c.(apnUser := value)) else None
    case ApnPass => if |value| < MAX_APN_USER_LENGTH then Some(c.(apnPass := value)) else None
    case Level => if LevelOf(value).Some? then Some(c.(logLevel := LevelOf(value).value)) else None
    case Output => if OutputOf(value).Some? then Some(c.(logOutput := OutputOf(value).value)) else None
    case GpsUere => if 0.0 < floats.parse(value) < 100.0 then Some(c.(gpsUere := floats.parse(value))) else None
    case GpsLogs => if SwitchOf(value).Some? then Some(c.(gpsLogging := SwitchOf(value).value)) else None
    case GpsLogFile => if 0 < |value| < MAX_GPS_LOG_PATH_LENGTH then Some(c.(gpsLogFile := value)) else None
    case GpsPrintPos => if SwitchOf(value).Some? then Some(c.(gpsPrintPos := SwitchOf(value).value)) else None
  }

  /** The text that the serializer of `p` makes of its field. */
  function Serialized(c: Config, p: Param, floats: Floats): string {
    match p
    case DeviceName => c.deviceName
    case ServerAddr => c.serverAddr
    case ServerPort => c.serverPort
    case ServerProtocol => if c.protocol == Http then "http" else "https"
    case Apn => c.apn
    case ApnUser => c.apnUser
    case ApnPass => c.apnPass
    case Level =>
      (match c.logLevel
       case LevelNone => ""
       case LevelError => "error"
       case LevelWarn => "warn"
       case LevelInfo => "info"
       case LevelDebug => "debug")
    case Output => (match c.logOutput case Uart => "uart" case Trace => "trace" case ToFile => "file")
    case GpsUere => floats.format(c.gpsUere)
    case GpsLogs => if c.gpsLogging then "true" else "false"
    case GpsLogFile => c.gpsLogFile
    case GpsPrintPos => if c.gpsPrintPos then "true" else "false"
  }

  /** The strings fit the arrays of t_Config. */
  predicate Bounded(c: Config) {
    && |c.deviceName| < MAX_DEVICE_NAME_LENGTH && |c.serverAddr| < MAX_SERVER_ADDR_LENGTH
    && |c.serverPort| < MAX_SERVER_PORT_LENGTH && |c.apn| < MAX_APN_LENGTH
    && |c.apnUser| < MAX_APN_USER_LENGTH && |c.apnPass| < MAX_APN_USER_LENGTH
    && |c.gpsLogFile| < MAX_GPS_LOG_PATH_LENGTH
  }

  lemma {:induction false} AcceptedBounded(c: Config, p: Param, value: string, floats: Floats)
    requires Bounded(c) && Accepted(c, p, value, floats).Some?
    ensures Bounded(Accepted(c, p, value, floats).value)
  {
  }

  lemma {:induction false} TrimLeftPrefix(s: string, k: nat)
    requires k <= |s|
    ensures var lead := |s| - |TrimLeft(s)|;
            TrimLeft(s[..k]) == if k <= lead then "" else TrimLeft(s)[..k - lead]
  {
    if s != "" && IsSpace(s[0]) {
      if k > 0 {
        assert s[..k][1..] == s[1..][..k - 1];
        TrimLeftPrefix(s[1..], k - 1);
      }
    } else {
      assert k == 0 ==> s[..k] == "";
    }
  }

  /** Cutting digits off makes a positive number smaller. */
  lemma {:induction false} FewerDigits(s: string, k: nat)
    requires k < |s| && AllDigits(s)
    ensures Decimal(s[..k]) <= Decimal(s) && (Decimal(s) > 0 ==> Decimal(s[..k]) < Decimal(s))
    decreases |s|
  {
    var t := s[..|s| - 1];
    if k < |t| {
      FewerDigits(t, k);
      assert t[..k] == s[..k];
    }
  }

  /** No proper prefix of the text of a positive number is a text of the same number. */
  lemma {:induction false} PrefixDiffers(s: string, k: nat)
    requires k < |s| && WholeNumber(s).Some? && WholeNumber(s).value > 0
    ensures WholeNumber(s[..k]) != WholeNumber(s)
  {
    hide TrimLeft;
    TrimLeftPrefix(s, k);
    var t, u := TrimLeft(s), TrimLeft(s[..k]);
    if u != "" {
      assert u == t[..|u|] && |u| < |t| && u[0] == t[0];
      var digits, fewer := WholeDigits(s), WholeDigits(s[..k]);
      assert fewer == digits[..|fewer|];
      FewerDigits(digits, |fewer|);
    }
  }

  /**
   The port that is stored is the port that was accepted exactly when its text is shorter than the array: a longer text,
   with leading zeros, is clipped and names another number or none.
   */
  lemma {:induction false} PortStored(c: Config, value: string, floats: Floats)
    requires PortText(value)
    ensures var stored := Accepted(c, ServerPort, value, floats);
            && stored.Some?
            && (stored.value.serverPort == value <==> |value| < MAX_SERVER_PORT_LENGTH)
            && (WholeNumber(stored.value.serverPort) == WholeNumber(value) <==> |value| < MAX_SERVER_PORT_LENGTH)
  {
    hide WholeNumber;
    if |value| >= MAX_SERVER_PORT_LENGTH {
      PrefixDiffers(value, MAX_SERVER_PORT_LENGTH - 1);
    }
  }

  function Zeros(n: nat): (s: string)
    ensures |s| == n && forall i :: 0 <= i < n ==> s[i] == '0'
  {
    if n == 0 then "" else Zeros(n - 1) + "0"
  }

  lemma {:induction false} ZerosAreZero(n: nat)
    ensures AllDigits(Zeros(n)) && Decimal(Zeros(n)) == 0
  {
    if n > 0 {
      ZerosAreZero(n - 1);
      assert Zeros(n)[..n - 1] == Zeros(n - 1);
    }
  }

  lemma {:induction false} DecimalMore(s: string, digit: string)
    requires AllDigits(s) && AllDigits(digit) && |digit| == 1
    ensures AllDigits(s + digit)
    ensures Decimal(s + digit) == Decimal(s) * 10 + (digit[0] as int - '0' as int)
  {
    assert (s + digit)[..|s|] == s;
  }

  lemma {:induction false} PaddedEight()
    ensures AllDigits("0000008") && AllDigits("00000080")
    ensures Decimal("0000008") == 8 && Decimal("00000080") == 80
  {
    hide Decimal;
    ZerosAreZero(6);
    DecimalMore(Zeros(6), "8");
    DecimalMore("0000008", "0");
    assert "0000008" == Zeros(6) + "8" && "00000080" == "0000008" + "0";
  }

  /** Port 80 with six zeros in front is accepted and stored as port 8. */
  lemma {:induction false} PortClipped(c: Config, floats: Floats)
    ensures PortText("00000080") && WholeNumber("00000080") == Some(80)
    ensures var stored := Accepted(c, ServerPort, "00000080", floats);
            stored.Some? && stored.value.serverPort == "0000008" && WholeNumber(stored.value.serverPort) == Some(8)
  {
    hide Decimal, Zeros;
    PaddedEight();
    assert "00000080"[..7] == "0000008";
  }

  /** A chain of str_case_cmp tests. */
  method IsOneOf(value: string, words: seq<string>) returns (found: bool)
    requires NulFree(value) && forall i :: 0 <= i < |words| ==> NulFree(words[i])
    ensures found <==> Says(value, words)
  {
    var i := 0;
    while i < |words|
      invariant 0 <= i <= |words| && forall j :: 0 <= j < i ==> Lower(value) != Lower(words[j])
    {
      var r := StrCaseCmp(value, words[i]);
      if r == 0 {
        return true;
      }
      i := i + 1;
    }
    found := false;
  }

  method ReadLevel(value: string) returns (level: Option<LogLevel>)
    requires NulFree(value)
    ensures level == LevelOf(value)
  {
    hide Says;
    var says := IsOneOf(value, ["none"]);
    if says { return Some(LevelNone); }
    says := IsOneOf(value, ["error"]);
    if says { return Some(LevelError); }
    says := IsOneOf(value, ["warn", "warning"]);
    if says { return Some(LevelWarn); }
    says := IsOneOf(value, ["info"]);
    if says { return Some(LevelInfo); }
    says := IsOneOf(value, ["debug"]);
    if says { return Some(LevelDebug); }
    level := None;
  }

  method ReadOutput(value: string) returns (output: Option<LogOutput>)
    requires NulFree(value)
    ensures output == OutputOf(value)
  {
    hide Says;
    var says := IsOneOf(value, ["uart"]);
    if says { return Some(Uart); }
    says := IsOneOf(value, ["trace"]);
    if says { return Some(Trace); }
    says := IsOneOf(value, ["file"]);
    if says { return Some(ToFile); }
    output := None;
  }

  method ReadSwitch(value: string) returns (switch: Option<bool>)
    requires NulFree(value)
    ensures switch == SwitchOf(value)
  {
    hide Says;
    var says := IsOneOf(value, OFF);
    if says { return Some(false); }
    says := IsOneOf(value, ON);
    if says { return Some(true); }
    switch := None;
  }

  /** g_ConfigStore. */
  class Store {
    var deviceName: string
    var serverAddr: string
    var serverPort: string
    var protocol: Protocol
    var apn: string
    var apnUser: string
    var apnPass: string
    var logLevel: LogLevel
    var logOutput: LogOutput
    var gpsUere: real
    var gpsLogging: bool
    var gpsLogFile: string
    var gpsPrintPos: bool
    ghost var log: seq<string>   // the lines that were given to parse_line

    function Contents(): Config
      reads this
    {
      Config(deviceName, serverAddr, serverPort, protocol, apn, apnUser, apnPass, logLevel, logOutput,
             gpsUere, gpsLogging, gpsLogFile, gpsPrintPos)
    }

    /** The validators of the string fields. */
    method ValidateText(p: Param, value: string, floats: Floats) returns (ok: bool)
      requires NulFree(value) && p in {DeviceName, ServerAddr, ServerPort, Apn, ApnUser, ApnPass, GpsLogFile}
      modifies this
      ensures ok <==> Accepted(old(Contents()), p, value, floats).Some?
      ensures Contents() == if ok then Accepted(old(Contents()), p, value, floats).value else old(Contents())
      ensures log == old(log)
    {
      hide Says, WholeNumber, ProtocolOf, LevelOf, OutputOf, SwitchOf;
      ok := false;
      match p
      case DeviceName =>
        if 0 < |value| < MAX_DEVICE_NAME_LENGTH {
          deviceName, ok := Clipped(value, MAX_DEVICE_NAME_LENGTH), true;
        }
      case ServerAddr =>
        if 0 < |value| < MAX_SERVER_ADDR_LENGTH {
          serverAddr, ok := Clipped(value, MAX_SERVER_ADDR_LENGTH), true;
        }
      case ServerPort =>
        if PortText(value) {
          serverPort, ok := Clipped(value, MAX_SERVER_PORT_LENGTH), true;
        }
      case Apn =>
        if 0 < |value| < MAX_APN_LENGTH {
          apn, ok := Clipped(value, MAX_APN_LENGTH), true;
        }
      case ApnUser =>
        if |value| < MAX_APN_USER_LENGTH {
          apnUser, ok := Clipped(value, MAX_APN_USER_LENGTH), true;
        }
      case ApnPass =>
        if |value| < MAX_APN_USER_LENGTH {
          apnPass, ok := Clipped(value, MAX_APN_USER_LENGTH), true;
        }
      case GpsLogFile =>
        if 0 < |value| < MAX_GPS_LOG_PATH_LENGTH {
          gpsLogFile, ok := Clipped(value, MAX_GPS_LOG_PATH_LENGTH), true;
        }
    }

    /** The validators of the other fields. */
    method ValidateChoice(p: Param, value: string, floats: Floats) returns (ok: bool)
      requires NulFree(value) && p in {ServerProtocol, Level, Output, GpsUere, GpsLogs, GpsPrintPos}
      modifies this
      ensures ok <==> Accepted(old(Contents()), p, value, floats).Some?
      ensures Contents() == if ok then Accepted(old(Contents()), p, value, floats).value else old(Contents())
      ensures log == old(log)
    {
      hide Says, WholeNumber, LevelOf, OutputOf, SwitchOf;
      ok := false;
      match p
      case ServerProtocol =>
        var http := IsOneOf(value, ["http"]);
        var https := IsOneOf(value, ["https"]);
        if http || https {
          protocol, ok := if http then Http else Https, true;
        }
      case Level =>
        var level := ReadLevel(value);
        if level.Some? {
          logLevel, ok := level.value, true;
        }
      case Output =>
        var output := ReadOutput(value);
        if output.Some? {
          logOutput, ok := output.value, true;
        }
      case GpsUere =>
        var uere := floats.parse(value);
        if 0.0 < uere < 100.0 {
          gpsUere, ok := uere, true;
        }
      case GpsLogs =>
        var switch := ReadSwitch(value);
        if switch.Some? {
          gpsLogging, ok := switch.value, true;
        }
      case GpsPrintPos =>
        var switch := ReadSwitch(value);
        if switch.Some? {
          gpsPrintPos, ok := switch.value, true;
        }
    }

    /** The validators, each for its field. */
    method Validate(p: Param, value: string, floats: Floats) returns (ok: bool)
      requires NulFree(value)
      modifies this
      ensures ok <==> Accepted(old(Contents()), p, value, floats).Some?
      ensures Contents() == if ok then Accepted(old(Contents()), p, value, floats).value else old(Contents())
      ensures log == old(log)
    {
      hide Accepted, Contents;
      match p
      case ServerProtocol => ok := ValidateChoice(p, value, floats);
      case Level => ok := ValidateChoice(p, value, floats);
      case Output => ok := ValidateChoice(p, value, floats);
      case GpsUere => ok := ValidateChoice(p, value, floats);
      case GpsLogs => ok := ValidateChoice(p, value, floats);
      case GpsPrintPos => ok := ValidateChoice(p, value, floats);
      case _ => ok := ValidateText(p, value, floats);
    }
  }

  lemma {:induction false} NamesDiffer(p: Param)
    ensures forall q :: Name(q) == Name(p) ==> q == p
  {
  }

  function Lookup(name: string): (entry: Option<Param>)
    ensures entry.Some? ==> Name(entry.value) == name
    ensures entry.None? ==> forall p :: Name(p) != name
  {
    if exists p :: Name(p) == name then (var p :| Name(p) == name; NamesDiffer(p); Some(p)) else None
  }

  lemma {:induction false} AllListed(p: Param)
    ensures p in PARAMS
  {
    assert PARAMS[0] == DeviceName && PARAMS[1] == ServerAddr && PARAMS[2] == ServerPort && PARAMS[3] == ServerProtocol;
    assert PARAMS[4] == Apn && PARAMS[5] == ApnUser && PARAMS[6] == ApnPass && PARAMS[7] == Level
           && PARAMS[8] == Output;
    assert PARAMS[9] == GpsUere && PARAMS[10] == GpsLogs && PARAMS[11] == GpsLogFile && PARAMS[12] == GpsPrintPos;
  }

  /** getConfigMap: the entry of that name. */
  method GetConfigMap(name: string) returns (entry: Option<Param>)
    ensures entry == Lookup(name)
  {
    var i := 0;
    while i < |PARAMS|
      invariant 0 <= i <= |PARAMS| && forall j :: 0 <= j < i ==> Name(PARAMS[j]) != name
    {
      if Name(PARAMS[i]) == name {
        NamesDiffer(PARAMS[i]);
        return Some(PARAMS[i]);
      }
      i := i + 1;
    }
    forall p | Name(p) == name ensures false {
      AllListed(p);
    }
    entry := None;
  }
}
