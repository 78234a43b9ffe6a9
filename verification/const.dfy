/** Constants of `aiocomfoconnect.const`: the property type codes used to
    decode property replies, the unit and subunit numbers used in request
    payloads, and the two alarm catalogues (before and after firmware 1.4.0)
    that both extend a shared base catalogue. */
module Const {
  import opened Results

  // Property (PDO) type codes
  const TYPE_CN_BOOL: int := 0x00
  const TYPE_CN_UINT8: int := 0x01
  const TYPE_CN_UINT16: int := 0x02
  const TYPE_CN_UINT32: int := 0x03
  const TYPE_CN_INT8: int := 0x05
  const TYPE_CN_INT16: int := 0x06
  const TYPE_CN_INT64: int := 0x08
  const TYPE_CN_STRING: int := 0x09
  const TYPE_CN_TIME: int := 0x10
  const TYPE_CN_VERSION: int := 0x11

  // Units and subunits addressed by the session layer
  const UNIT_ERROR: int := 0x03
  const UNIT_SCHEDULE: int := 0x15
  const UNIT_TEMPHUMCONTROL: int := 0x1D
  const SUBUNIT_01: int := 0x01
  const SUBUNIT_02: int := 0x02
  const SUBUNIT_03: int := 0x03
  const SUBUNIT_06: int := 0x06
  const SUBUNIT_07: int := 0x07
  const SUBUNIT_08: int := 0x08

  /** ERRORS_BASE, codes 21..69 in order; the six codes it skips
      (36, 40, 42, 44, 46, 48) are `None`. */
  const BaseTable: seq<Option<string>> := [
    /* 21 */ Some("DANGER! OVERHEATING! Two or more sensors are detecting an incorrect temperature. Ventilation has stopped."),
    /* 22 */ Some("Temperature too high for ComfoAir Q (TEMP_HRU ERROR)"),
    /* 23 */ Some("The extract air temperature sensor has a malfunction (SENSOR_ETA ERROR)"),
    /* 24 */ Some("The extract air temperature sensor is detecting an incorrect temperature (TEMP_SENSOR_ETA ERROR)"),
    /* 25 */ Some("The exhaust air temperature sensor has a malfunction (SENSOR_EHA ERROR)"),
    /* 26 */ Some("The exhaust air temperature sensor is detecting an incorrect temperature (TEMP_SENSOR_EHA ERROR)"),
    /* 27 */ Some("The outdoor air temperature sensor has a malfunction (SENSOR_ODA ERROR)"),
    /* 28 */ Some("The outdoor air temperature sensor is detecting an incorrect temperature (TEMP_SENSOR_ODA ERROR)"),
    /* 29 */ Some("The pre-conditioned outdoor air temperature sensor has a malfunction"),
    /* 30 */ Some("The pre-conditioned outdoor air temperature sensor is detecting an incorrect temperature (TEMP_SENSOR_P-ODA ERROR)"),
    /* 31 */ Some("The supply air temperature sensor has a malfunction (SENSOR_SUP ERROR)"),
    /* 32 */ Some("The supply air temperature sensor is detecting an incorrect temperature (TEMP_SENSOR_SUP ERROR)"),
    /* 33 */ Some("The Ventilation Unit has not been commissioned (INIT ERROR)"),
    /* 34 */ Some("The front door is open"),
    /* 35 */ Some("The Pre-heater is present, but not in the correct position (right/left). (PREHEAT_LOCATION ERROR)"),
    /* 36 */ None,
    /* 37 */ Some("The pre-heater has a malfunction (PREHEAT ERROR)"),
    /* 38 */ Some("The pre-heater has a malfunction (PREHEAT ERROR)"),
    /* 39 */ Some("The extract air humidity sensor has a malfunction (SENSOR_ETA ERROR)"),
    /* 40 */ None,
    /* 41 */ Some("The exhaust air humidity sensor has a malfunction (SENSOR_EHA ERROR)"),
    /* 42 */ None,
    /* 43 */ Some("The outdoor air humidity sensor has a malfunction (SENSOR_ODA ERROR)"),
    /* 44 */ None,
    /* 45 */ Some("The outdoor air humidity sensor has a malfunction (SENSOR_P-ODA ERROR)"),
    /* 46 */ None,
    /* 47 */ Some("The supply air humidity sensor has a malfunction (SENSOR_SUP ERROR)"),
    /* 48 */ None,
    /* 49 */ Some("The exhaust air flow sensor has a malfunction (SENSOR_EHA ERROR)"),
    /* 50 */ Some("The supply air flow sensor has a malfunction (SENSOR_SUP ERROR)"),
    /* 51 */ Some("The extract air fan has a malfunction (FAN_EHA ERROR)"),
    /* 52 */ Some("The supply air fan has a malfunction (FAN_SUP ERROR)"),
    /* 53 */ Some("Exhaust air pressure too high. Check air outlets, ducts and filters for pollution and obstructions. Check valve settings (EXT_PRESSURE_EHA ERROR)"),
    /* 54 */ Some("Supply air pressure too high. Check air outlets, ducts and filters for pollution and obstructions. Check valve settings. (EXT_PRESSURE_SUP ERROR)"),
    /* 55 */ Some("The extract air fan has a malfunction (FAN_EHA ERROR)"),
    /* 56 */ Some("The supply air fan has a malfunction (FAN_SUP ERROR)"),
    /* 57 */ Some("The exhaust air flow is not reaching its set point (AIRFLOW_EHA ERROR)"),
    /* 58 */ Some("The supply air flow is not reaching its set point (AIRFLOW_SUP ERROR)"),
    /* 59 */ Some("Failed to reach required temperature too often for outdoor air after pre-heater (TEMPCONTROL_P-ODA ERROR)"),
    /* 60 */ Some("Failed to reach required temperature too often for supply air. The modulating by-pass may have a malfunction. (TEMPCONTROL_SUP ERROR)"),
    /* 61 */ Some("Supply air temperature is too low too often (TEMP_SUP_MIN ERROR)"),
    /* 62 */ Some("Unbalance occurred too often beyond tolerance levels in past period (UNBALANCE ERROR)"),
    /* 63 */ Some("Postheater was present, but is no longer detected (POSTHEAT_CONNECT ERROR)"),
    /* 64 */ Some("Temperature sensor value for supply air ComfoCool exceeded limit too often (CCOOL_TEMP ERROR)"),
    /* 65 */ Some("Room temperature sensor was present, but is no longer detected (T_ROOM_PRES ERROR)"),
    /* 66 */ Some("RF Communication hardware was present, but is no longer detected (RF_PRES ERROR)"),
    /* 67 */ Some("Option Box was present, but is no longer detected (OPTION_BOX CONNECT ERROR)"),
    /* 68 */ Some("Pre-heater was present, but is no longer detected (PREHEAT_PRES ERROR)"),
    /* 69 */ Some("Postheater was present, but is no longer detected (POSTHEAT_CONNECT ERROR)")
  ]

  /** The entries ERRORS adds to the base, codes 70..104 in order. */
  const NewerTable: seq<string> := [
    /* 70 */ "Analog input 1 was present, but is no longer detected (ANALOG_1_PRES ERROR)",
    /* 71 */ "Analog input 2 was present, but is no longer detected (ANALOG_2_PRES ERROR)",
    /* 72 */ "Analog input 3 was present, but is no longer detected (ANALOG_3_PRES ERROR)",
    /* 73 */ "Analog input 4 was present, but is no longer detected (ANALOG_4_PRES ERROR)",
    /* 74 */ "ComfoHood was present, but is no longer detected (HOOD_CONNECT ERROR)",
    /* 75 */ "ComfoCool was present, but is no longer detected (CCOOL_CONNECT ERROR)",
    /* 76 */ "ComfoFond was present, but is no longer detected (GROUND_HEAT_CONNECT ERROR)",
    /* 77 */ "The filters of the Ventilation Unit must be replaced now",
    /* 78 */ "It is necessary to replace or clean the external filter",
    /* 79 */ "Order new filters now, because the remaining filter life time is limited",
    /* 80 */ "Service mode is active (SERVICE MODE)",
    /* 81 */ "Preheater has no communication with the ComfoAir unit (PREHEAT ERROR , 1081)",
    /* 82 */ "ComfoHood temperature error (HOOD_TEMP ERROR)",
    /* 83 */ "Postheater temperature error (POSTHEAT_TEMP ERROR)",
    /* 84 */ "Outdoor temperature of ComfoFond error (GROUND_HEAT_TEMP ERROR)",
    /* 85 */ "Analog input 1 error (ANALOG_1_IN ERROR)",
    /* 86 */ "Analog input 2 error (ANALOG_2_IN ERROR)",
    /* 87 */ "Analog input 3 error (ANALOG_3_IN ERROR)",
    /* 88 */ "Analog input 4 error (ANALOG_4_IN ERROR)",
    /* 89 */ "Bypass is in manual mode",
    /* 90 */ "ComfoCool is overheating",
    /* 91 */ "ComfoCool compressor error (CCOOL_COMPRESSOR ERROR)",
    /* 92 */ "ComfoCool room temperature sensor error (CCOOL_TEMP ERROR)",
    /* 93 */ "ComfoCool condensor temperature sensor error (CCOOL_TEMP ERROR)",
    /* 94 */ "ComfoCool supply air temperature sensor error (CCOOL_TEMP ERROR)",
    /* 95 */ "ComfoHood temperature is too high (HOOD_TEMP ERROR)",
    /* 96 */ "ComfoHood is activated",
    /* 97 */ "QM_Constraint_min_ERR",
    /* 98 */ "H_21_qm_min_ERR",
    /* 99 */ "Configuration error",
    /* 100 */ "Error analysis is in progress…",
    /* 101 */ "ComfoNet Error",
    /* 102 */ "The number of CO2 sensors has decreased – one or more sensors are no longer detected",
    /* 103 */ "More than 8 sensors detected in a zone",
    /* 104 */ "CO₂ Sensor C error"
  ]

  /** The entries ERRORS_140 adds to the base, codes 70..86 in order. */
  const OlderTable: seq<string> := [
    /* 70 */ "ComfoHood was present, but is no longer detected (HOOD_CONNECT ERROR)",
    /* 71 */ "ComfoCool was present, but is no longer detected (CCOOL_CONNECT ERROR)",
    /* 72 */ "ComfoFond was present, but is no longer detected (GROUND_HEAT_CONNECT ERROR)",
    /* 73 */ "The filters of the Ventilation Unit must be replaced now",
    /* 74 */ "It is necessary to replace or clean the external filter",
    /* 75 */ "Order new filters now, because the remaining filter life time is limited",
    /* 76 */ "Service mode is active (SERVICE MODE)",
    /* 77 */ "Preheater has no communication with the ComfoAir unit (PREHEAT ERROR , 1081)",
    /* 78 */ "ComfoHood temperature error (HOOD_TEMP ERROR)",
    /* 79 */ "Postheater temperature error (POSTHEAT_TEMP ERROR)",
    /* 80 */ "Outdoor temperature of ComfoFond error (GROUND_HEAT_TEMP ERROR)",
    /* 81 */ "Bypass is in manual mode",
    /* 82 */ "ComfoCool is overheating",
    /* 83 */ "ComfoCool compressor error (CCOOL_COMPRESSOR ERROR)",
    /* 84 */ "ComfoCool room temperature sensor error (CCOOL_TEMP ERROR)",
    /* 85 */ "ComfoCool condensor temperature sensor error (CCOOL_TEMP ERROR)",
    /* 86 */ "ComfoCool supply air temperature sensor error (CCOOL_TEMP ERROR)"
  ]

  /** The three catalogue tables hold 49, 35 and 17 entries: codes 21..69,
      70..104 and 70..86. */
  lemma TableLengths()
    ensures |BaseTable| == 49 && |NewerTable| == 35 && |OlderTable| == 17
  {
  }

  /** ERRORS_BASE looked up by code. */
  function ErrorsBase(code: int): (r: Option<string>)
    ensures r.Some? ==> 21 <= code <= 69
    ensures code in {36, 40, 42, 44, 46, 48} ==> r.None?
  {
    if 21 <= code <= 69 then BaseTable[code - 21] else None
  }

  /** ERRORS (firmware newer than 1.4.0) looked up by code. */
  function Errors(code: int): (r: Option<string>)
    ensures r.Some? <==> (70 <= code <= 104 || ErrorsBase(code).Some?)
    ensures r.Some? ==> 21 <= code <= 104
  {
    if 70 <= code <= 104 then Some(NewerTable[code - 70]) else ErrorsBase(code)
  }

  /** ERRORS_140 (firmware 1.4.0 and older) looked up by code. */
  function Errors140(code: int): (r: Option<string>)
    ensures r.Some? <==> (70 <= code <= 86 || ErrorsBase(code).Some?)
    ensures r.Some? ==> 21 <= code <= 86
  {
    if 70 <= code <= 86 then Some(OlderTable[code - 70]) else ErrorsBase(code)
  }

  /** Both catalogues spread ERRORS_BASE, so they agree on every base code. */
  lemma CataloguesAgreeOnBase(code: int)
    requires ErrorsBase(code).Some?
    ensures 21 <= code <= 69
    ensures Errors(code) == ErrorsBase(code) && Errors140(code) == ErrorsBase(code)
  {
  }

  /** Table form of the shift for codes 70..80: the older table's entry i
      is the newer table's entry i + 4. */
  lemma OlderTableShiftLow(i: int)
    requires 0 <= i <= 10
    ensures |OlderTable| == 17 && |NewerTable| == 35
    ensures OlderTable[i] == NewerTable[i + 4]
  {
    if i == 0 {
      assert OlderTable[0] == NewerTable[4];
    } else if i == 1 {
      assert OlderTable[1] == NewerTable[5];
    } else if i == 2 {
      assert OlderTable[2] == NewerTable[6];
    } else if i == 3 {
      assert OlderTable[3] == NewerTable[7];
    } else if i == 4 {
      assert OlderTable[4] == NewerTable[8];
    } else if i == 5 {
      assert OlderTable[5] == NewerTable[9];
    } else if i == 6 {
      assert OlderTable[6] == NewerTable[10];
    } else if i == 7 {
      assert OlderTable[7] == NewerTable[11];
    } else if i == 8 {
      assert OlderTable[8] == NewerTable[12];
    } else if i == 9 {
      assert OlderTable[9] == NewerTable[13];
    } else if i == 10 {
      assert OlderTable[10] == NewerTable[14];
    }
  }

  /** Table form of the shift for codes 81..86: entry i is entry i + 8. */
  lemma OlderTableShiftHigh(i: int)
    requires 11 <= i <= 16
    ensures |OlderTable| == 17 && |NewerTable| == 35
    ensures OlderTable[i] == NewerTable[i + 8]
  {
    if i == 11 {
      assert OlderTable[11] == NewerTable[19];
    } else if i == 12 {
      assert OlderTable[12] == NewerTable[20];
    } else if i == 13 {
      assert OlderTable[13] == NewerTable[21];
    } else if i == 14 {
      assert OlderTable[14] == NewerTable[22];
    } else if i == 15 {
      assert OlderTable[15] == NewerTable[23];
    } else if i == 16 {
      assert OlderTable[16] == NewerTable[24];
    }
  }

  /** The pre-1.4.0 codes above the base are the newer codes shifted down:
      by 4 for 70..80 (four analog-input alarms were inserted before them)
      and by 8 for 81..86 (four analog-input errors more). */
  lemma Errors140Shifted(code: int)
    requires 70 <= code <= 86
    ensures code <= 80 ==> Errors140(code) == Errors(code + 4)
    ensures code >= 81 ==> Errors140(code) == Errors(code + 8)
  {
    if code <= 80 {
      OlderTableShiftLow(code - 70);
    } else {
      OlderTableShiftHigh(code - 70);
    }
  }

  /** Key domains: ERRORS_140 keys lie in 21..86 and ERRORS keys in 21..104,
      and both are defined on every code from 70 up to their maximum. */
  lemma CatalogueDomains(code: int)
    ensures Errors140(code).Some? ==> 21 <= code <= 86
    ensures Errors(code).Some? ==> 21 <= code <= 104
    ensures 70 <= code <= 104 ==> Errors(code).Some?
    ensures 70 <= code <= 86 ==> Errors140(code).Some?
  {
    TableLengths();
  }

  /** The six gaps of the base catalogue are absent from both catalogues. */
  lemma CatalogueGaps(code: int)
    requires code in {36, 40, 42, 44, 46, 48}
    ensures Errors(code).None? && Errors140(code).None?
  {
    TableLengths();
    assert BaseTable[15] == None && BaseTable[19] == None && BaseTable[21] == None;
    assert BaseTable[23] == None && BaseTable[25] == None && BaseTable[27] == None;
  }
}
