/** The ventilation settings of `ComfoConnect` (aiocomfoconnect/comfoconnect.py):
    each setting has a setter that builds the RMI payload(s) to send and a
    getter that interprets the reply. Settings are the strings the library
    uses ("away", "low", ...); a string outside a setting's enumeration
    raises ValueError. */
module Settings {
  import opened Results
  import opened Bytes
  import opened Util
  import opened Const
  import Rmi

  /** ValueError (bad setting name or reply value), OverflowError (a timeout
      that does not fit in four signed bytes) and IndexError (indexing an
      empty reply). */
  datatype SettingError = InvalidValue | Overflow | NoData

  // ---------------------------------------------------------------------
  // Requests to the schedule unit

  /** The three request shapes sent to the schedule unit (0x15): 0x83 reads
      an item, 0x85 clears its override, 0x84 overrides it with a level for
      a timeout (four signed little-endian bytes; -1 means no end). */
  datatype ScheduleRequest =
    | Query(subunit: Byte, item: Byte)
    | Clear(subunit: Byte, item: Byte)
    | Override(subunit: Byte, item: Byte, timeout: int, level: Byte)

  predicate FitsInt32(t: int)
  {
    -Half(4) <= t < Half(4)
  }

  function EncodeSchedule(req: ScheduleRequest): (r: Result<seq<Byte>, SettingError>)
    ensures r.Failure? <==> req.Override? && !FitsInt32(req.timeout)
    ensures r.Failure? ==> r.error == Overflow
    ensures r.Success? ==> |r.value| == (if req.Override? then 13 else 4)
    ensures r.Success? ==> r.value[1] == UNIT_SCHEDULE && r.value[2] == req.subunit && r.value[3] == req.item
  {
    match req
    case Query(s, i) => Success([0x83, UNIT_SCHEDULE, s, i])
    case Clear(s, i) => Success([0x85, UNIT_SCHEDULE, s, i])
    case Override(s, i, t, v) =>
      match ToSignedLE(t, 4)
      case Failure(_) => Failure(Overflow)
      case Success(tb) => Success([0x84, UNIT_SCHEDULE, s, i, 0x00, 0x00, 0x00, 0x00] + tb + [v])
  }

  /** The reader that pins down what each byte of a schedule request means. */
  function ParseSchedule(b: seq<Byte>): Option<ScheduleRequest>
  {
    if |b| == 4 && b[0] == 0x83 && b[1] == UNIT_SCHEDULE then Some(Query(b[2], b[3]))
    else if |b| == 4 && b[0] == 0x85 && b[1] == UNIT_SCHEDULE then Some(Clear(b[2], b[3]))
    else if |b| == 13 && b[0] == 0x84 && b[1] == UNIT_SCHEDULE && b[4..8] == [0, 0, 0, 0] then
      Some(Override(b[2], b[3], SignedLE(b[8..12]), b[12]))
    else None
  }

  /** Every encodable request reads back as itself. */
  lemma ParseEncodeSchedule(req: ScheduleRequest)
    requires EncodeSchedule(req).Success?
    ensures ParseSchedule(EncodeSchedule(req).value) == Some(req)
  {
    if req.Override? {
      var b := EncodeSchedule(req).value;
      var tb := ToSignedLE(req.timeout, 4).value;
      assert b[8..12] == tb;
      assert b[4..8] == [0, 0, 0, 0];
      SignedLERoundTrip(req.timeout, 4);
    }
  }

  /** Every well-formed request is the encoding of what it reads as. */
  lemma EncodeParseSchedule(b: seq<Byte>)
    requires ParseSchedule(b).Some?
    ensures EncodeSchedule(ParseSchedule(b).value) == Success(b)
  {
    if |b| == 13 {
      var tb := b[8..12];
      SignedLEInverse(tb);
      assert ToSignedLE(SignedLE(tb), 4) == Success(tb);
      assert ParseSchedule(b) == Some(Override(b[2], b[3], SignedLE(tb), b[12]));
      var head: seq<Byte> := [0x84, UNIT_SCHEDULE, b[2], b[3], 0x00, 0x00, 0x00, 0x00];
      assert EncodeSchedule(Override(b[2], b[3], SignedLE(tb), b[12])) == Success(head + tb + [b[12]]);
      assert b[..8] == head;
      assert b == b[..8] + tb + [b[12]];
    } else {
      assert b == [b[0], b[1], b[2], b[3]];
    }
  }

  /** The fixed-timeout payloads written out byte by byte (timeout bytes
      01 00 00 00) are overrides with timeout 1. */
  lemma LiteralOverride(s: Byte, i: Byte, v: Byte)
    ensures ParseSchedule([0x84, UNIT_SCHEDULE, s, i, 0x00, 0x00, 0x00, 0x00, 0x01, 0x00, 0x00, 0x00, v])
      == Some(Override(s, i, 1, v))
  {
    var b: seq<Byte> := [0x84, UNIT_SCHEDULE, s, i, 0x00, 0x00, 0x00, 0x00, 0x01, 0x00, 0x00, 0x00, v];
    var tb: seq<Byte> := [0x01, 0x00, 0x00, 0x00];
    assert b[8..12] == tb && b[4..8] == [0, 0, 0, 0];
    assert UnsignedLE(tb[3..]) == 0;
    assert UnsignedLE(tb[2..]) == 0;
    assert UnsignedLE(tb[1..]) == 0;
    assert UnsignedLE(tb) == 1;
  }

  /** The override payloads are written with `bytestring`, splicing the
      timeout's bytes between the integer bytes; this is that list. */
  function OverrideItems(s: Byte, i: Byte, tb: seq<Byte>, v: Byte): seq<Item>
  {
    Ints([0x84, UNIT_SCHEDULE, s, i, 0x00, 0x00, 0x00, 0x00]) + [BytesItem(tb)] + [IntItem(v)]
  }

  /** `bytestring` of that list is the encoded override. */
  lemma OverrideIsBytestring(s: Byte, i: Byte, t: int, v: Byte)
    requires FitsInt32(t)
    ensures Bytestring(OverrideItems(s, i, ToSignedLE(t, 4).value, v)) == Success(EncodeSchedule(Override(s, i, t, v)).value)
  {
    var tb := ToSignedLE(t, 4).value;
    var head := [0x84, UNIT_SCHEDULE, s, i, 0x00, 0x00, 0x00, 0x00];
    BytestringAppend(Ints(head) + [BytesItem(tb)], [IntItem(v)]);
    BytestringAppend(Ints(head), [BytesItem(tb)]);
    BytestringOfInts(head);
    BytestringSingle(BytesItem(tb));
    BytestringSingle(IntItem(v));
  }

  /** Where each schedule setting lives: (subunit, item). */
  datatype ScheduleSetting =
    | SpeedSetting | ModeSetting | BypassSetting | ProfileSetting
    | SupplySetting | ExhaustSetting | BoostSetting | AwaySetting

  function Location(s: ScheduleSetting): (Byte, Byte)
  {
    match s
    case SpeedSetting => (SUBUNIT_01, 0x01)
    case ModeSetting => (SUBUNIT_08, 0x01)
    case BypassSetting => (SUBUNIT_02, 0x01)
    case ProfileSetting => (SUBUNIT_03, 0x01)
    case SupplySetting => (SUBUNIT_06, 0x01)
    case ExhaustSetting => (SUBUNIT_07, 0x01)
    case BoostSetting => (SUBUNIT_01, 0x06)
    case AwaySetting => (SUBUNIT_01, 0x0B)
  }

  /** The request every getter sends: the 0x83 query of its location. */
  function QueryPayload(s: ScheduleSetting): (r: seq<Byte>)
    ensures ParseSchedule(r) == Some(Query(Location(s).0, Location(s).1))
  {
    [0x83, UNIT_SCHEDULE, Location(s).0, Location(s).1]
  }

  lemma LocationsDistinct(a: ScheduleSetting, b: ScheduleSetting)
    requires a != b
    ensures Location(a) != Location(b)
  {
  }

  /** What a reply's first byte says about an item: 1 while an override is
      active, 0 otherwise. */
  function ActiveFlag(req: ScheduleRequest): Byte
  {
    if req.Override? then 1 else 0
  }

  // ---------------------------------------------------------------------
  // Enumerations

  /** The settings by the byte that encodes them. */
  const SPEEDS: seq<string> := ["away", "low", "medium", "high"]
  const SETTINGS: seq<string> := ["auto", "on", "off"]
  const PROFILES: seq<string> := ["normal", "cool", "warm"]
  const VENTMODES: seq<string> := ["off", "auto", "on"]
  const BALANCES: seq<string> := ["balance", "supply_only", "exhaust_only"]

  /** The position of a name in an enumeration. */
  function IndexOf(names: seq<string>, name: string): (r: nat)
    requires name in names
    ensures r < |names| && names[r] == name
    ensures forall j :: 0 <= j < r ==> names[j] != name
  {
    if names[0] == name then 0 else 1 + IndexOf(names[1..], name)
  }

  function Last(b: seq<Byte>): Byte
    requires |b| > 0
  {
    b[|b| - 1]
  }

  lemma EnumerationsDistinct()
    ensures forall i, j :: 0 <= i < j < |SPEEDS| ==> SPEEDS[i] != SPEEDS[j]
    ensures forall i, j :: 0 <= i < j < |SETTINGS| ==> SETTINGS[i] != SETTINGS[j]
    ensures forall i, j :: 0 <= i < j < |PROFILES| ==> PROFILES[i] != PROFILES[j]
    ensures forall i, j :: 0 <= i < j < |VENTMODES| ==> VENTMODES[i] != VENTMODES[j]
    ensures forall i, j :: 0 <= i < j < |BALANCES| ==> BALANCES[i] != BALANCES[j]
    ensures "auto" != "manual"
  {
  }

  // ---------------------------------------------------------------------
  // Speed

  /** `set_speed`: an override of item 1 of subunit 1 with timeout 1 and the
      speed's code (away 0, low 1, medium 2, high 3). */
  function SetSpeed(speed: string): (r: Result<seq<Byte>, SettingError>)
    ensures r.Success? <==> speed in SPEEDS
    ensures r.Failure? ==> r.error == InvalidValue
    ensures r.Success? ==>
      ParseSchedule(r.value) == Some(Override(Location(SpeedSetting).0, Location(SpeedSetting).1, 1, IndexOf(SPEEDS, speed)))
  {
    LiteralOverride(SUBUNIT_01, 0x01, 0x00);
    LiteralOverride(SUBUNIT_01, 0x01, 0x01);
    LiteralOverride(SUBUNIT_01, 0x01, 0x02);
    LiteralOverride(SUBUNIT_01, 0x01, 0x03);
    if speed == "away" then
      Success([0x84, UNIT_SCHEDULE, SUBUNIT_01, 0x01, 0x00, 0x00, 0x00, 0x00, 0x01, 0x00, 0x00, 0x00, 0x00])
    else if speed == "low" then
      Success([0x84, UNIT_SCHEDULE, SUBUNIT_01, 0x01, 0x00, 0x00, 0x00, 0x00, 0x01, 0x00, 0x00, 0x00, 0x01])
    else if speed == "medium" then
      Success([0x84, UNIT_SCHEDULE, SUBUNIT_01, 0x01, 0x00, 0x00, 0x00, 0x00, 0x01, 0x00, 0x00, 0x00, 0x02])
    else if speed == "high" then
      Success([0x84, UNIT_SCHEDULE, SUBUNIT_01, 0x01, 0x00, 0x00, 0x00, 0x00, 0x01, 0x00, 0x00, 0x00, 0x03])
    else Failure(InvalidValue)
  }

  /** `get_speed`: the reply's last byte names the speed. */
  function GetSpeed(reply: seq<Byte>): (r: Result<string, SettingError>)
    ensures |reply| == 0 ==> r == Failure(NoData)
    ensures |reply| > 0 ==> (r.Success? <==> Last(reply) <= 3)
    ensures r.Success? ==> r.value in SPEEDS && IndexOf(SPEEDS, r.value) == Last(reply)
  {
    if |reply| == 0 then Failure(NoData)
    else
      var speed := reply[|reply| - 1];
      if speed == 0 then Success("away")
      else if speed == 1 then Success("low")
      else if speed == 2 then Success("medium")
      else if speed == 3 then Success("high")
      else Failure(InvalidValue)
  }

  /** A reply that echoes the level a set wrote reads as the speed that was
      set. */
  lemma SpeedRoundTrip(speed: string, reply: seq<Byte>)
    requires SetSpeed(speed).Success?
    requires |reply| > 0 && Last(reply) == ParseSchedule(SetSpeed(speed).value).value.level
    ensures GetSpeed(reply) == Success(speed)
  {
  }

  /** Reading a code and setting the speed it names writes that code. */
  lemma SpeedCodeRoundTrip(reply: seq<Byte>)
    requires GetSpeed(reply).Success?
    ensures SetSpeed(GetSpeed(reply).value).Success?
    ensures ParseSchedule(SetSpeed(GetSpeed(reply).value).value).value.level == Last(reply)
  {
  }

  // ---------------------------------------------------------------------
  // Mode

  /** `set_mode`: "auto" clears the override of item 1 of subunit 8,
      "manual" overrides it with level 1 and timeout 1. */
  function SetMode(mode: string): (r: Result<seq<Byte>, SettingError>)
    ensures r.Success? <==> mode == "auto" || mode == "manual"
    ensures r.Failure? ==> r.error == InvalidValue
    ensures mode == "auto" ==> r.Success? && ParseSchedule(r.value) == Some(Clear(SUBUNIT_08, 0x01))
    ensures mode == "manual" ==> r.Success? && ParseSchedule(r.value) == Some(Override(SUBUNIT_08, 0x01, 1, 1))
  {
    LiteralOverride(SUBUNIT_08, 0x01, 0x01);
    if mode == "auto" then Success([0x85, UNIT_SCHEDULE, SUBUNIT_08, 0x01])
    else if mode == "manual" then
      Success([0x84, UNIT_SCHEDULE, SUBUNIT_08, 0x01, 0x00, 0x00, 0x00, 0x00, 0x01, 0x00, 0x00, 0x00, 0x01])
    else Failure(InvalidValue)
  }

  /** `get_mode`: manual exactly when the override is active. */
  function GetMode(reply: seq<Byte>): (r: Result<string, SettingError>)
    ensures |reply| == 0 <==> r == Failure(NoData)
    ensures |reply| > 0 ==> r.Success? && (r.value == "manual" <==> reply[0] == 1)
    ensures r.Success? ==> r.value == "manual" || r.value == "auto"
  {
    if |reply| == 0 then Failure(NoData)
    else if reply[0] == 1 then Success("manual") else Success("auto")
  }

  /** After a set, a reply whose active flag matches the request reads as
      the mode that was set. */
  lemma ModeRoundTrip(mode: string, reply: seq<Byte>)
    requires SetMode(mode).Success?
    requires |reply| > 0 && reply[0] == ActiveFlag(ParseSchedule(SetMode(mode).value).value)
    ensures GetMode(reply) == Success(mode)
  {
  }

  // ---------------------------------------------------------------------
  // Bypass

  /** `set_bypass(mode, timeout)` (the timeout defaults to -1): "auto"
      clears the override of item 1 of subunit 2; "on" and "off" override it
      with level 1 and 2. The name is checked before the timeout is
      converted, so "auto" never overflows. */
  function SetBypass(mode: string, timeout: int): (r: Result<seq<Byte>, SettingError>)
    ensures r.Success? <==> mode in SETTINGS && (mode == "auto" || FitsInt32(timeout))
    ensures r.Failure? ==> r.error == (if mode in SETTINGS then Overflow else InvalidValue)
    ensures r.Success? ==> ParseSchedule(r.value) == Some(
      if mode == "auto" then Clear(SUBUNIT_02, 0x01) else Override(SUBUNIT_02, 0x01, timeout, IndexOf(SETTINGS, mode)))
  {
    var req := if mode == "auto" then Clear(SUBUNIT_02, 0x01)
               else if mode == "on" then Override(SUBUNIT_02, 0x01, timeout, 0x01)
               else Override(SUBUNIT_02, 0x01, timeout, 0x02);
    if mode !in SETTINGS then Failure(InvalidValue)
    else
      var r := EncodeSchedule(req);
      if r.Success? then ParseEncodeSchedule(req); r else r
  }

  /** `get_bypass`: the reply's last byte, 0 auto, 1 on, 2 off. */
  function GetBypass(reply: seq<Byte>): (r: Result<string, SettingError>)
    ensures |reply| == 0 ==> r == Failure(NoData)
    ensures |reply| > 0 ==> (r.Success? <==> Last(reply) <= 2)
    ensures r.Success? ==> r.value in SETTINGS && IndexOf(SETTINGS, r.value) == Last(reply)
  {
    if |reply| == 0 then Failure(NoData)
    else
      var mode := reply[|reply| - 1];
      if mode == 0 then Success("auto")
      else if mode == 1 then Success("on")
      else if mode == 2 then Success("off")
      else Failure(InvalidValue)
  }

  /** The reply of an item whose override is cleared ends in 0, one that is
      overridden ends in its level; either way the bypass reads back as set. */
  lemma BypassRoundTrip(mode: string, timeout: int, reply: seq<Byte>)
    requires SetBypass(mode, timeout).Success?
    requires |reply| > 0
    requires var req := ParseSchedule(SetBypass(mode, timeout).value).value;
      Last(reply) == if req.Override? then req.level else 0
    ensures GetBypass(reply) == Success(mode)
  {
  }

  // ---------------------------------------------------------------------
  // Balance

  /** The requests a setter sent, in order, and the exception it raised
      after them, if any. */
  datatype Requests = Requests(sent: seq<seq<Byte>>, raised: Option<SettingError>)

  /** `set_balance_mode(mode, timeout)`: two requests, one for the supply
      side (subunit 6) and one for the exhaust side (subunit 7). "balance"
      clears both; "supply_only" overrides subunit 6 and clears 7;
      "exhaust_only" clears 6 and overrides 7; overrides have level 1. The
      timeout is converted only when its request is built, so an
      "exhaust_only" whose timeout does not fit has already cleared
      subunit 6 when the OverflowError is raised. */
  function SetBalance(mode: string, timeout: int): (r: Requests)
    ensures r.raised.None? <==> mode in BALANCES && (mode == "balance" || FitsInt32(timeout))
    ensures r.raised.Some? ==> r.raised.value == (if mode in BALANCES then Overflow else InvalidValue)
    ensures |r.sent| == (if r.raised.None? then 2 else if mode == "exhaust_only" then 1 else 0)
    ensures |r.sent| >= 1 ==> ParseSchedule(r.sent[0]) == Some(
      if mode == "supply_only" then Override(SUBUNIT_06, 0x01, timeout, 1) else Clear(SUBUNIT_06, 0x01))
    ensures |r.sent| == 2 ==> ParseSchedule(r.sent[1]) == Some(
      if mode == "exhaust_only" then Override(SUBUNIT_07, 0x01, timeout, 1) else Clear(SUBUNIT_07, 0x01))
  {
    var supply := if mode == "supply_only" then Override(SUBUNIT_06, 0x01, timeout, 1) else Clear(SUBUNIT_06, 0x01);
    var exhaust := if mode == "exhaust_only" then Override(SUBUNIT_07, 0x01, timeout, 1) else Clear(SUBUNIT_07, 0x01);
    if mode !in BALANCES then Requests([], Some(InvalidValue))
    else
      match EncodeSchedule(supply)
      case Failure(e) => Requests([], Some(e))
      case Success(a) =>
        ParseEncodeSchedule(supply);
        match EncodeSchedule(exhaust)
        case Failure(e) => Requests([a], Some(e))
        case Success(b) =>
          ParseEncodeSchedule(exhaust);
          Requests([a, b], None)
  }

  /** `get_balance_mode`: the first bytes of the two replies. Equal flags
      mean balance (even both active), (1, 0) supply only, (0, 1) exhaust
      only; anything else raises ValueError. */
  function GetBalance(reply06: seq<Byte>, reply07: seq<Byte>): (r: Result<string, SettingError>)
    ensures |reply06| == 0 || |reply07| == 0 <==> r == Failure(NoData)
    ensures r.Success? ==> r.value in BALANCES
    ensures r.Success? ==> (r.value == "balance" <==> reply06[0] == reply07[0])
    ensures r.Success? ==> (r.value == "supply_only" <==> reply06[0] == 1 && reply07[0] == 0)
    ensures r.Success? ==> (r.value == "exhaust_only" <==> reply06[0] == 0 && reply07[0] == 1)
    ensures r.Failure? && |reply06| > 0 && |reply07| > 0 ==>
      r.error == InvalidValue && reply06[0] != reply07[0] && (reply06[0] > 1 || reply07[0] > 1)
  {
    if |reply06| == 0 || |reply07| == 0 then Failure(NoData)
    else
      var m06 := reply06[0];
      var m07 := reply07[0];
      if m06 == m07 then Success("balance")
      else if m06 == 1 && m07 == 0 then Success("supply_only")
      else if m06 == 0 && m07 == 1 then Success("exhaust_only")
      else Failure(InvalidValue)
  }

  /** When each side's reply flags whether its request was an override, the
      balance reads back as set. */
  lemma BalanceRoundTrip(mode: string, timeout: int, reply06: seq<Byte>, reply07: seq<Byte>)
    requires SetBalance(mode, timeout).raised.None?
    requires |reply06| > 0 && |reply07| > 0
    requires reply06[0] == ActiveFlag(ParseSchedule(SetBalance(mode, timeout).sent[0]).value)
    requires reply07[0] == ActiveFlag(ParseSchedule(SetBalance(mode, timeout).sent[1]).value)
    ensures GetBalance(reply06, reply07) == Success(mode)
  {
  }

  // ---------------------------------------------------------------------
  // Boost and away

  /** The two timed modes: boost (item 6, level 3) and away (item 11,
      level 0), both on subunit 1. */
  datatype TimedMode = Boost | Away

  function TimedSetting(t: TimedMode): ScheduleSetting
  {
    if t == Boost then BoostSetting else AwaySetting
  }

  /** `set_boost(mode, timeout)` and `set_away(mode, timeout)` (timeout
      defaults to 3600 seconds): on overrides the item, off clears it. */
  function SetTimed(t: TimedMode, on: bool, timeout: int): (r: Result<seq<Byte>, SettingError>)
    ensures r.Success? <==> !on || FitsInt32(timeout)
    ensures r.Failure? ==> r.error == Overflow
    ensures r.Success? ==>
      var (s, i) := Location(TimedSetting(t));
      ParseSchedule(r.value) == Some(if on then Override(s, i, timeout, if t == Boost then 3 else 0) else Clear(s, i))
  {
    var (s, i) := Location(TimedSetting(t));
    var req := if on then Override(s, i, timeout, if t == Boost then 0x03 else 0x00) else Clear(s, i);
    var r := EncodeSchedule(req);
    if r.Success? then ParseEncodeSchedule(req); r else r
  }

  /** `get_boost` / `get_away`: active exactly when the first byte is 1. */
  function GetTimed(reply: seq<Byte>): (r: Result<bool, SettingError>)
    ensures |reply| == 0 <==> r == Failure(NoData)
    ensures |reply| > 0 ==> r.Success? && (r.value <==> reply[0] == 1)
  {
    if |reply| == 0 then Failure(NoData) else Success(reply[0] == 1)
  }

  lemma TimedRoundTrip(t: TimedMode, on: bool, timeout: int, reply: seq<Byte>)
    requires SetTimed(t, on, timeout).Success?
    requires |reply| > 0 && reply[0] == ActiveFlag(ParseSchedule(SetTimed(t, on, timeout).value).value)
    ensures GetTimed(reply) == Success(on)
  {
  }

  // ---------------------------------------------------------------------
  // Temperature profile

  /** `set_temperature_profile(profile, timeout)` (timeout defaults to -1):
      an override of item 1 of subunit 3 with warm 2, normal 0, cool 1. */
  function SetTemperatureProfile(profile: string, timeout: int): (r: Result<seq<Byte>, SettingError>)
    ensures r.Success? <==> profile in PROFILES && FitsInt32(timeout)
    ensures r.Failure? ==> r.error == (if profile in PROFILES then Overflow else InvalidValue)
    ensures r.Success? ==>
      ParseSchedule(r.value) == Some(Override(SUBUNIT_03, 0x01, timeout, IndexOf(PROFILES, profile)))
  {
    var level := if profile == "warm" then 0x02 else if profile == "normal" then 0x00 else 0x01;
    var req := Override(SUBUNIT_03, 0x01, timeout, level);
    if profile !in PROFILES then Failure(InvalidValue)
    else
      var r := EncodeSchedule(req);
      if r.Success? then ParseEncodeSchedule(req); r else r
  }

  /** `get_temperature_profile`: the reply's last byte, 2 warm, 0 normal,
      1 cool. */
  function GetTemperatureProfile(reply: seq<Byte>): (r: Result<string, SettingError>)
    ensures |reply| == 0 ==> r == Failure(NoData)
    ensures |reply| > 0 ==> (r.Success? <==> Last(reply) <= 2)
    ensures r.Success? ==> r.value in PROFILES && IndexOf(PROFILES, r.value) == Last(reply)
  {
    if |reply| == 0 then Failure(NoData)
    else
      var mode := reply[|reply| - 1];
      if mode == 2 then Success("warm")
      else if mode == 0 then Success("normal")
      else if mode == 1 then Success("cool")
      else Failure(InvalidValue)
  }

  lemma TemperatureProfileRoundTrip(profile: string, timeout: int, reply: seq<Byte>)
    requires SetTemperatureProfile(profile, timeout).Success?
    requires |reply| > 0 && Last(reply) == ParseSchedule(SetTemperatureProfile(profile, timeout).value).value.level
    ensures GetTemperatureProfile(reply) == Success(profile)
  {
  }

  lemma TemperatureProfileCodeRoundTrip(reply: seq<Byte>, timeout: int)
    requires GetTemperatureProfile(reply).Success? && FitsInt32(timeout)
    ensures SetTemperatureProfile(GetTemperatureProfile(reply).value, timeout).Success?
    ensures ParseSchedule(SetTemperatureProfile(GetTemperatureProfile(reply).value, timeout).value).value.level == Last(reply)
  {
  }

  // ---------------------------------------------------------------------
  // Sensor based ventilation modes

  /** The three sensor based ventilation modes of the temperature/humidity
      control unit (0x1D), by property id: temperature passive 4, humidity
      comfort 6, humidity protection 7. */
  datatype Ventmode = TemperaturePassive | HumidityComfort | HumidityProtection

  function PropertyId(v: Ventmode): Byte
  {
    match v
    case TemperaturePassive => 0x04
    case HumidityComfort => 0x06
    case HumidityProtection => 0x07
  }

  /** The getters' request: a read of the mode's property. */
  function VentmodeQuery(v: Ventmode): (r: seq<Byte>)
    ensures Rmi.ParsePayload(r) == Some(Rmi.ReadProperty(UNIT_TEMPHUMCONTROL, SUBUNIT_01, PropertyId(v)))
  {
    [0x01, UNIT_TEMPHUMCONTROL, SUBUNIT_01, 0x10, PropertyId(v)]
  }

  /** `set_sensor_ventmode_*`: a property write of auto 1, on 2, off 0. */
  function SetVentmode(v: Ventmode, mode: string): (r: Result<seq<Byte>, SettingError>)
    ensures r.Success? <==> mode in SETTINGS
    ensures r.Failure? ==> r.error == InvalidValue
    ensures r.Success? ==>
      Rmi.ParsePayload(r.value) == Some(Rmi.WriteProperty(UNIT_TEMPHUMCONTROL, SUBUNIT_01, PropertyId(v), IndexOf(VENTMODES, mode)))
  {
    if mode == "auto" then Success([0x03, UNIT_TEMPHUMCONTROL, SUBUNIT_01, PropertyId(v), 0x01])
    else if mode == "on" then Success([0x03, UNIT_TEMPHUMCONTROL, SUBUNIT_01, PropertyId(v), 0x02])
    else if mode == "off" then Success([0x03, UNIT_TEMPHUMCONTROL, SUBUNIT_01, PropertyId(v), 0x00])
    else Failure(InvalidValue)
  }

  /** `get_sensor_ventmode_*`: the whole reply as an unsigned little-endian
      integer, 1 auto, 2 on, 0 off. An empty reply is 0 and reads as off. */
  function GetVentmode(reply: seq<Byte>): (r: Result<string, SettingError>)
    ensures r.Success? <==> UnsignedLE(reply) <= 2
    ensures r.Success? ==> r.value in VENTMODES && IndexOf(VENTMODES, r.value) == UnsignedLE(reply)
    ensures r.Failure? ==> r.error == InvalidValue
    ensures |reply| == 0 ==> r == Success("off")
  {
    var mode := UnsignedLE(reply);
    if mode == 1 then Success("auto")
    else if mode == 2 then Success("on")
    else if mode == 0 then Success("off")
    else Failure(InvalidValue)
  }

  /** A property reply holding the value a set wrote, at any width, reads
      back as the mode that was set. */
  lemma VentmodeRoundTrip(v: Ventmode, mode: string, reply: seq<Byte>)
    requires SetVentmode(v, mode).Success?
    requires UnsignedLE(reply) == Rmi.ParsePayload(SetVentmode(v, mode).value).value.value
    ensures GetVentmode(reply) == Success(mode)
  {
  }

  /** Reading a mode and writing it back writes the value that was read. */
  lemma VentmodeCodeRoundTrip(v: Ventmode, reply: seq<Byte>)
    requires GetVentmode(reply).Success?
    ensures SetVentmode(v, GetVentmode(reply).value).Success?
    ensures Rmi.ParsePayload(SetVentmode(v, GetVentmode(reply).value).value).value.value == UnsignedLE(reply)
  {
  }

  // ---------------------------------------------------------------------
  // Errors

  /** `clear_errors`: request 0x82 to subunit 1 of the error unit. */
  function ClearErrors(): (r: seq<Byte>)
    ensures |r| == 3 && r[1] == UNIT_ERROR
    ensures ParseSchedule(r).None? && Rmi.ParsePayload(r).None?
  {
    [0x82, UNIT_ERROR, 0x01]
  }
}
