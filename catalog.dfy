/** The bilingual field catalog of the settings page: an identification marker, the
    list of extra fields (each with its own delimiters) and the sensor table, in an
    English and a German variant. Table order is significant: the scan position is
    carried from one entry to the next. */
module Catalog {

  datatype Language = En | De

  /** The other language. */
  function Flip(lang: Language): (r: Language)
    ensures r != lang
  {
    if lang == En then De else En
  }

  /** An extra field: its full key marker, the delimiter that introduces its value, the
      delimiter that ends it, and the semantic key it is reported under. */
  datatype ExtraField = ExtraField(key: string, intro: string, ending: string, name: string)

  /** One sensor table entry: the device field id (or localized description) and the
      semantic key. */
  type SensorDef = (string, string)

  const IdentificationEn := "\"name\":\"General Settings\""
  const IdentificationDe := "\"name\":\"Allgemeine Einstellungen\""

  /** The marker whose presence identifies a settings page in `lang`. */
  function Identification(lang: Language): string
  {
    if lang == En then IdentificationEn else IdentificationDe
  }

  const ExtraDataDe: seq<ExtraField> := [
    ExtraField("<tr><td>Software Version</td>", "<td>", "</td></tr>", "software_version"),
    ExtraField("<tr><td>Regler Online</td>", "<td>", "h</td></tr>", "regler_online"),
    ExtraField("<tr><td>Laufzeit Stufe&nbsp1</td>", "<td>", "h</td></tr>", "runtime_nb_1"),
    ExtraField("<tr><td>Schaltzyklen Stufe&nbsp1</td>", "<td>", "</td></tr>", "switch_cycles_nb_1"),
    ExtraField("<tr><td>Laufzeit 2.Wärmeerzeuger</td>", "<td>", "h</td></tr>", "runtime_nb_2"),
    ExtraField("<tr><td>Schaltzyklen 2.Wärmeerzeuger</td>", "<td>", "</td></tr>", "switch_cycles_nb_2"),
    ExtraField("<tr><td>Laufzeit Heizen</td>", "<td>", "h</td></tr>", "runtime_heating"),
    ExtraField("<tr><td>Laufzeit Kühlen</td>", "<td>", "h</td></tr>", "runtime_cooling"),
    ExtraField("<tr><td>Laufzeit Warmwasser</td>", "<td>", "h</td></tr>", "runtime_hotwater"),
    ExtraField("<tr><td>Laufzeit Abtauen</td>", "<td>", "h</td></tr>", "runtime_defrosting")
  ]

  const ExtraDataEn: seq<ExtraField> := [
    ExtraField("<tr><td>Software Version</td>", "<td>", "</td></tr>", "software_version"),
    ExtraField("<tr><td>Controller Online</td>", "<td>", "h</td></tr>", "regler_online"),
    ExtraField("<tr><td>Runtime Stage&nbsp1</td>", "<td>", "h</td></tr>", "runtime_nb_1"),
    ExtraField("<tr><td>Starts Stage&nbsp1</td>", "<td>", "</td></tr>", "switch_cycles_nb_1"),
    ExtraField("<tr><td>Runtime 2nd Stage</td>", "<td>", "h</td></tr>", "runtime_nb_2"),
    ExtraField("<tr><td>Starts 2nd Stage</td>", "<td>", "</td></tr>", "switch_cycles_nb_2"),
    ExtraField("<tr><td>Runtime Heating</td>", "<td>", "h</td></tr>", "runtime_heating"),
    ExtraField("<tr><td>Runtime Cooling</td>", "<td>", "h</td></tr>", "runtime_cooling"),
    ExtraField("<tr><td>Runtime Domestic Hot Water</td>", "<td>", "h</td></tr>", "runtime_hotwater"),
    ExtraField("<tr><td>Runtime Defrost</td>", "<td>", "h</td></tr>", "runtime_defrosting")
  ]

  /** The extra-field list of `lang`. */
  function ExtraData(lang: Language): seq<ExtraField>
  {
    if lang == En then ExtraDataEn else ExtraDataDe
  }

  const SensorDefinitionsDe: seq<SensorDef> := [
    // input/output values
    ("B32", "outside_air_temperature"),
    ("B33", "flow_temperature"),
    ("B34", "return_temperature"),
    ("B48", "water_temp_top"),
    ("B41", "water_temp_bottom"),
    ("B53", "flow_temp_HK_C"),
    ("B71", "hotgas_temperature"),
    ("B37", "airsource_temperature"),
    ("B79", "verdampfer_austritt_temperature"),
    ("B78", "verdamper_pressure"),
    ("B78v", "verdampfungs_temperatur"),
    ("B86v", "condenser_temperature"),
    ("B86", "condenser_pressure"),
    ("B87", "liquid_line_temperature"),
    ("Platinentemperatur", "board_temperature"),
    ("B2", "flowmeter"),
    ("Batteriespannung Zentraleinheit", "battery_voltage_central_unit"),
    // digital inputs
    ("Externe Anforderung", "external_request"),
    ("Ext. Umschaltung H/K", "ext_switch_heating_cooling"),
    ("EW/EVU Sperrkontakt", "ew_evu_lock_contact"),
    ("B15", "failure_eheating"),
    ("B5", "dewpoint_humidity_alarm"),
    ("ext. Vorrangladung", "ext_hotwater_signal"),
    ("B10", "high_pressure_error"),
    ("M73#1", "flow_pump_on"),
    // analogue outputs
    ("M73#2", "flow_pump_percentage"),
    ("M13", "ventilator_voltage"),
    ("AInOut 80-81", "ainout_80_81"),
    ("AInOut 82-83", "ainout_82_83"),
    ("AInOut 84-85", "ainout_84_85"),
    ("AInOut 86-87", "ainout_86_87"),
    ("AInOut 88-89", "ainout_88_89"),
    ("AInOut 180-181", "ainout_180_181"),
    // digital outputs
    ("M73#3", "flow_pump_activated"),
    ("M51", "4way_valve_circuit1"),
    ("M31", "pump_heating_circuitA"),
    ("M33", "pump_heating_circuitC"),
    ("M43", "mixer_heating_circuitC"),
    ("M64", "hotwater_circulation_pump"),
    ("E31", "siphon_heating"),
    ("Elektroheizeinsatz 1kW", "e_heater_1kw_on"),
    ("Elektroheizeinsatz 2kW", "e_heater_2kw_on"),
    ("Elektroheizeinsatz 3kW", "e_heater_3kw_on"),
    ("M61", "valve_heating/cooling"),
    ("M62", "valve_warm/cold"),
    ("M63", "value_heating/hotwater"),
    // service parameters
    ("Überhitzung 1", "super_heating_1"),
    ("Unterkühlung", "sub_cooling"),
    ("Ventilposition", "valve_position"),
    ("Ventilpos. Unterk.", "valve_pos_sub_cool"),
    ("Ventilpos. EVDMini", "valve_pos_evdmini"),
    // photovoltaic parameters (present only when PV is configured on the device)
    ("mom./prog. Leistung Heizen", "cur_exp_power_heating"),
    ("mom./prog. Leistung Kühlen", "cur_exp_power_cooling"),
    ("mom./prog. Leistung Vorrang", "cur_exp_power_hotwater"),
    ("Wärmepumpe Aufnahmeleistung", "cur_el_power")
  ]

  const SensorDefinitionsEn: seq<SensorDef> := [
    // input/output values
    ("B32", "outside_air_temperature"),
    ("B33", "flow_temperature"),
    ("B34", "return_temperature"),
    ("B48", "water_temp_top"),
    ("B41", "water_temp_bottom"),
    ("B53", "flow_temp_HK_C"),
    ("B71", "hotgas_temperature"),
    ("B37", "airsource_temperature"),
    ("B79", "verdampfer_austritt_temperature"),
    ("B78", "verdamper_pressure"),
    ("B78v", "verdampfungs_temperatur"),
    ("B86v", "condenser_temperature"),
    ("B86", "condenser_pressure"),
    ("B87", "liquid_line_temperature"),
    ("board temperature", "board_temperature"),
    ("B2", "flowmeter"),
    ("Battery voltage central unit", "battery_voltage_central_unit"),
    // digital inputs
    ("external request", "external_request"),
    ("ext. heat/cool switch", "ext_switch_heating_cooling"),
    ("EW/EVU blocking", "ew_evu_lock_contact"),
    ("B15", "failure_eheating"),
    ("B5", "dewpoint_humidity_alarm"),
    ("ext. priority request", "ext_hotwater_signal"),
    ("B10", "high_pressure_error"),
    ("M73#1", "flow_pump_on"),
    // analogue outputs
    ("M73#2", "flow_pump_percentage"),
    ("M13", "ventilator_voltage"),
    ("AInOut 80-81", "ainout_80_81"),
    ("AInOut 82-83", "ainout_82_83"),
    ("AInOut 84-85", "ainout_84_85"),
    ("AInOut 86-87", "ainout_86_87"),
    ("AInOut 88-89", "ainout_88_89"),
    ("AInOut 180-181", "ainout_180_181"),
    // digital outputs
    ("M73#3", "flow_pump_activated"),
    ("M51", "4way_valve_circuit1"),
    ("M31", "pump_heating_circuitA"),
    ("M33", "pump_heating_circuitC"),
    ("M43", "mixer_heating_circuitC"),
    ("M64", "hotwater_circulation_pump"),
    ("E31", "siphon_heating"),
    ("Electric Heater 1kW", "e_heater_1kw_on"),
    ("Electric Heater 2kW", "e_heater_2kw_on"),
    ("Electric Heater 3kW", "e_heater_3kw_on"),
    ("M61", "valve_heating/cooling"),
    ("M62", "valve_warm/cold"),
    ("M63", "value_heating/hotwater"),
    // service parameters
    ("Superheating 1", "super_heating_1"),
    ("Subcooling", "sub_cooling"),
    ("Valve position", "valve_position"),
    ("Valve pos. subc.", "valve_pos_sub_cool"),
    ("Valve pos. EVDMini", "valve_pos_evdmini"),
    // photovoltaic parameters (the device shows these in German in both languages)
    ("mom./prog. Leistung Heizen", "cur_exp_power_heating"),
    ("mom./prog. Leistung Kühlen", "cur_exp_power_cooling"),
    ("mom./prog. Leistung Vorrang", "cur_exp_power_hotwater"),
    ("Wärmepumpe Aufnahmeleistung", "cur_el_power")
  ]

  /** The sensor table of `lang`, in declaration order. */
  function SensorDefinitions(lang: Language): seq<SensorDef>
  {
    if lang == En then SensorDefinitionsEn else SensorDefinitionsDe
  }

  /** The key a sensor is reported under: the raw id (with any `#n`) when short, the
      semantic key when the id is a long localized description. */
  function ResultKey(def: SensorDef): string
  {
    if |def.0| <= 5 then def.0 else def.1
  }

  /** The keys a sensor table is reported under, in table order. */
  function ResultKeys(defs: seq<SensorDef>): seq<string>
  {
    seq(|defs|, i requires 0 <= i < |defs| => ResultKey(defs[i]))
  }

  /** The semantic keys of a sensor table, in table order. */
  function SensorNames(defs: seq<SensorDef>): seq<string>
  {
    seq(|defs|, i requires 0 <= i < |defs| => defs[i].1)
  }

  /** The semantic keys of an extra-field list, in list order. */
  function ExtraNames(defs: seq<ExtraField>): seq<string>
  {
    seq(|defs|, i requires 0 <= i < |defs| => defs[i].name)
  }

  /** The semantic keys of a sensor table are read off entry by entry. */
  lemma SensorNamesByIndex(defs: seq<SensorDef>)
    ensures |SensorNames(defs)| == |defs|
    ensures forall i :: 0 <= i < |defs| ==> SensorNames(defs)[i] == defs[i].1
  {
  }

  /** The semantic keys of an extra-field list are read off entry by entry. */
  lemma ExtraNamesByIndex(defs: seq<ExtraField>)
    ensures |ExtraNames(defs)| == |defs|
    ensures forall i :: 0 <= i < |defs| ==> ExtraNames(defs)[i] == defs[i].name
  {
  }

  /** The reported keys of a sensor table are read off entry by entry. */
  lemma ResultKeysByIndex(defs: seq<SensorDef>)
    ensures |ResultKeys(defs)| == |defs|
    ensures forall i :: 0 <= i < |defs| ==> ResultKeys(defs)[i] == ResultKey(defs[i])
  {
  }

  /** Both sensor tables report their readings under the same keys in the same order:
      the short ids agree, and where an id is a localized description in one language
      it is one in the other too. */
  lemma SensorTablesReportSameKeys()
    ensures ResultKeys(SensorDefinitionsEn) == ResultKeys(SensorDefinitionsDe)
  {
    ResultKeysByIndex(SensorDefinitionsEn);
    ResultKeysByIndex(SensorDefinitionsDe);
    InputOutputKeysAgree();
    DigitalInputKeysAgree();
    AnalogueOutputKeysAgree();
    DigitalOutputKeysAgree();
    ServiceAndPvKeysAgree();
  }

  /** The input/output values section of both tables is reported under the same keys. */
  lemma InputOutputKeysAgree()
    ensures |SensorDefinitionsEn| == |SensorDefinitionsDe| == 55
    ensures forall i :: 0 <= i < 17 ==> ResultKey(SensorDefinitionsEn[i]) == ResultKey(SensorDefinitionsDe[i])
  {
  }

  /** The digital inputs section of both tables is reported under the same keys. */
  lemma DigitalInputKeysAgree()
    ensures |SensorDefinitionsEn| == |SensorDefinitionsDe| == 55
    ensures forall i :: 17 <= i < 25 ==> ResultKey(SensorDefinitionsEn[i]) == ResultKey(SensorDefinitionsDe[i])
  {
  }

  /** The analogue outputs section of both tables is reported under the same keys. */
  lemma AnalogueOutputKeysAgree()
    ensures |SensorDefinitionsEn| == |SensorDefinitionsDe| == 55
    ensures forall i :: 25 <= i < 33 ==> ResultKey(SensorDefinitionsEn[i]) == ResultKey(SensorDefinitionsDe[i])
  {
  }

  /** The digital outputs section of both tables is reported under the same keys. */
  lemma DigitalOutputKeysAgree()
    ensures |SensorDefinitionsEn| == |SensorDefinitionsDe| == 55
    ensures forall i :: 33 <= i < 46 ==> ResultKey(SensorDefinitionsEn[i]) == ResultKey(SensorDefinitionsDe[i])
  {
  }

  /** The service and photovoltaic parameters section of both tables is reported under the same keys. */
  lemma ServiceAndPvKeysAgree()
    ensures |SensorDefinitionsEn| == |SensorDefinitionsDe| == 55
    ensures forall i :: 46 <= i < 55 ==> ResultKey(SensorDefinitionsEn[i]) == ResultKey(SensorDefinitionsDe[i])
  {
  }

  /** Both sensor tables report the same semantic keys in the same order. */
  lemma SensorTablesShareKeys()
    ensures SensorNames(SensorDefinitionsEn) == SensorNames(SensorDefinitionsDe)
  {
    SensorNamesByIndex(SensorDefinitionsEn);
    SensorNamesByIndex(SensorDefinitionsDe);
  }

  /** Both extra-field lists report the same semantic keys in the same order. */
  lemma ExtraListsShareKeys()
    ensures ExtraNames(ExtraDataEn) == ExtraNames(ExtraDataDe)
  {
    ExtraNamesByIndex(ExtraDataEn);
    ExtraNamesByIndex(ExtraDataDe);
  }

  /** Switching language never changes which keys are reported, nor their order: the
      two variants differ only in their markers. */
  lemma LanguagesShareSemanticKeys()
    ensures ResultKeys(SensorDefinitions(En)) == ResultKeys(SensorDefinitions(De))
    ensures SensorNames(SensorDefinitions(En)) == SensorNames(SensorDefinitions(De))
    ensures ExtraNames(ExtraData(En)) == ExtraNames(ExtraData(De))
    ensures Identification(En) != Identification(De)
  {
    SensorTablesReportSameKeys();
    SensorTablesShareKeys();
    ExtraListsShareKeys();
  }
}
