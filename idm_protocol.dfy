/** The text logic of the heat-pump web client, as pure functions over the response
    texts: classification of the login page and extraction of its CSRF token, and
    the scan of the settings page (CSRF-invalid detection, language selection, the
    extra-field walk, the sensor-table walk with its service-mode and photovoltaic
    special cases, and the reinterpretation of digital values). */
module IdmProtocol {
  import opened Wrappers
  import opened TextSearch
  import opened Extraction
  import opened Catalog

  /** One reported value: (key, value). */
  type Pair = (string, string)

  /** What an HTTP exchange with the device yields: a status code and body text, or a
      transport failure (connection error, timeout). */
  datatype HttpResponse = Response(status: int, text: string) | TransportError

  // ---------------------------------------------------------------- login

  datatype LoginStatus = Success | CannotConnect | InvalidPin | Unknown

  /** The result codes the client hands to its callers. */
  function LoginCode(s: LoginStatus): (code: string)
    ensures s != Success ==> code != "success"
  {
    match s
    case Success => "success"
    case CannotConnect => "cannot_connect"
    case InvalidPin => "invalid_pin"
    case Unknown => "unknown"
  }

  datatype LoginOutcome = LoginOutcome(status: LoginStatus, token: Option<string>)

  const AuthorizationMarker := "Authorization Required"
  const CsrfMarker := "csrf_token=\""

  /** Classification of a login page delivered with status 200. */
  function ClassifyLogin(txt: string): (r: LoginOutcome)
    ensures r.status != CannotConnect
    ensures r.status == InvalidPin <==> Find(txt, AuthorizationMarker, 0, |txt|) > 0
    ensures r.token.Some? <==> r.status == Success
    ensures r.status == Success ==> |r.token.value| <= 119
  {
    if Find(txt, AuthorizationMarker, 0, |txt|) > 0 then LoginOutcome(InvalidPin, None)
    else
      var startpos := Find(txt, CsrfMarker, 0, |txt|);
      if startpos == -1 then LoginOutcome(Unknown, None)
      else
        var endpos := Find(txt, "\"", startpos + 12, startpos + 132);
        if endpos == -1 then LoginOutcome(Unknown, None)
        else LoginOutcome(Success, Some(txt[startpos + 12..endpos]))
  }

  /** A token read from a login page is the text right after the first `csrf_token="`
      up to the next double quote: it holds no double quote and is followed by one. */
  lemma LoginTokenShape(txt: string)
    requires ClassifyLogin(txt).status == Success
    ensures var tok := ClassifyLogin(txt).token.value;
            var p := Find(txt, CsrfMarker, 0, |txt|);
            && FirstAt(txt, CsrfMarker, 0, |txt|, p)
            && p + 12 + |tok| < |txt|
            && txt[p + 12..p + 12 + |tok|] == tok
            && txt[p + 12 + |tok|] == '"'
            && '"' !in tok
  {
    var tok := ClassifyLogin(txt).token.value;
    var p := Find(txt, CsrfMarker, 0, |txt|);
    FindSpec(txt, CsrfMarker, 0, |txt|);
    var e := Find(txt, "\"", p + 12, p + 132);
    FindSpec(txt, "\"", p + 12, p + 132);
    assert e == p + 12 + |tok|;
    OccursAtChar(txt, '"', e);
    forall k | 0 <= k < |tok| ensures tok[k] != '"' {
      assert tok[k] == txt[p + 12 + k];
      OccursAtChar(txt, '"', p + 12 + k);
    }
  }

  /** A login page without a token marker, or whose token is not closed within the
      next 120 characters, is classified unknown, unless it is an authorization failure. */
  lemma LoginUnknownWithoutToken(txt: string)
    requires Find(txt, AuthorizationMarker, 0, |txt|) <= 0
    ensures !Contains(txt, CsrfMarker) ==> ClassifyLogin(txt).status == Unknown
    ensures (var p := Find(txt, CsrfMarker, 0, |txt|);
             p != -1 && Absent(txt, "\"", p + 12, p + 132)) ==> ClassifyLogin(txt).status == Unknown
  {
    FindWholeText(txt, CsrfMarker);
  }

  /** Round trip: a page that carries a quote-free token of at most 119 characters after
      its first token marker logs in with exactly that token. */
  lemma {:induction false} LoginTokenRoundTrip(prefix: string, tok: string, rest: string)
    requires forall i :: 0 <= i < |prefix| ==> !OccursAt(prefix + CsrfMarker + tok + "\"" + rest, CsrfMarker, i)
    requires Find(prefix + CsrfMarker + tok + "\"" + rest, AuthorizationMarker, 0,
                  |prefix + CsrfMarker + tok + "\"" + rest|) <= 0
    requires '"' !in tok
    requires |tok| <= 119
    ensures ClassifyLogin(prefix + CsrfMarker + tok + "\"" + rest) == LoginOutcome(Success, Some(tok))
  {
    var page := prefix + CsrfMarker + tok + "\"" + rest;
    var p := |prefix|;
    assert page[p..p + 12] == CsrfMarker;
    assert OccursAt(page, CsrfMarker, p);
    FindIsFirst(page, CsrfMarker, 0, |page|, p);
    var e := p + 12 + |tok|;
    assert page[e..e + 1] == "\"";
    assert page[p + 12..e] == tok;
    CharAbsentFromSlice(page, '"', p + 12, e);
    assert FirstAt(page, "\"", p + 12, p + 132, e);
    FindIsFirst(page, "\"", p + 12, p + 132, e);
  }

  /** A successful login stores exactly the token its page carries: for a page of the
      round-trip shape, the stored token becomes `tok` whatever was stored before. */
  lemma LoginStoresPageToken(old_token: Option<string>, prefix: string, tok: string, rest: string)
    requires forall i :: 0 <= i < |prefix| ==> !OccursAt(prefix + CsrfMarker + tok + "\"" + rest, CsrfMarker, i)
    requires Find(prefix + CsrfMarker + tok + "\"" + rest, AuthorizationMarker, 0,
                  |prefix + CsrfMarker + tok + "\"" + rest|) <= 0
    requires '"' !in tok
    requires |tok| <= 119
    ensures AfterLogin(old_token, Response(200, prefix + CsrfMarker + tok + "\"" + rest)) == Some(tok)
  {
    LoginTokenRoundTrip(prefix, tok, rest);
  }

  /** The outcome of a login exchange: transport failures and every status other than
      200 are "cannot connect"; a 200 page is classified by its text. */
  function LoginOf(resp: HttpResponse): (r: LoginOutcome)
    ensures r.token.Some? <==> r.status == Success
    ensures resp.TransportError? || resp.status != 200 ==> r == LoginOutcome(CannotConnect, None)
    ensures resp.Response? && resp.status == 200 ==> r == ClassifyLogin(resp.text)
  {
    match resp
    case TransportError => LoginOutcome(CannotConnect, None)
    case Response(status, txt) =>
      if status == 200 then ClassifyLogin(txt) else LoginOutcome(CannotConnect, None)
  }

  /** The CSRF token held after a login attempt: replaced on success, kept otherwise. */
  function AfterLogin(token: Option<string>, resp: HttpResponse): (t: Option<string>)
    ensures LoginOf(resp).status != Success ==> t == token
    ensures LoginOf(resp).status == Success ==> t == LoginOf(resp).token && t.Some? && |t.value| <= 119
  {
    if LoginOf(resp).status == Success then LoginOf(resp).token else token
  }

  // ---------------------------------------------------------------- settings page

  const CsrfInvalidMarker := "\"invalid csrf token\""
  const CsrfInvalidWindow: int := 128
  const InputsOutputsMarker := "\"edesc\":\"_INPUTS_OUTPUTS_INFO\""
  const PvMarker := "\"edesc\":\"_PV\""
  /** How far before a service-mode field id the scan is resynchronised. */
  const ServiceResyncBack: int := 50
  const ServiceModeName := "ainout_80_81"
  const ServiceSectionName := "super_heating_1"

  /** The language probe: the language in effect afterwards and the position of its
      identification marker, or -1 when the page is unreadable in both languages. */
  datatype Probe = Probe(lang: Language, pos: int)

  /** Keep the current language when its marker is present; otherwise switch to the
      other language, and report whether that one's marker is present. */
  function SelectLanguage(lang: Language, txt: string): (r: Probe)
    ensures r.pos == -1 || FirstAt(txt, Identification(r.lang), 0, |txt|, r.pos)
    ensures Contains(txt, Identification(lang)) ==> r.lang == lang && r.pos != -1
    ensures !Contains(txt, Identification(lang)) ==>
              r.lang == Flip(lang) && (r.pos == -1 <==> !Contains(txt, Identification(Flip(lang))))
  {
    FindWholeText(txt, Identification(lang));
    FindWholeText(txt, Identification(Flip(lang)));
    FindSpec(txt, Identification(lang), 0, |txt|);
    FindSpec(txt, Identification(Flip(lang)), 0, |txt|);
    var p := Find(txt, Identification(lang), 0, |txt|);
    if p != -1 then Probe(lang, p)
    else Probe(Flip(lang), Find(txt, Identification(Flip(lang)), 0, |txt|))
  }

  /** The pairs found so far and the carried scan position. */
  datatype Scan = Scan(pairs: seq<Pair>, pos: int)

  /** One extra field searched from `pos`: on success append its pair and move to just
      past its value; on a miss change nothing. */
  function ExtraStep(txt: string, d: ExtraField, pairs: seq<Pair>, pos: int): (r: Scan)
    ensures || (r.pairs == pairs && r.pos == pos)
            || (&& |r.pairs| == |pairs| + 1
                && r.pairs[..|pairs|] == pairs
                && r.pairs[|pairs|].0 == d.name
                && r.pos > pos)
  {
    var e := ExtractRaw(txt, pos, pos + ReadAheadBlock, d.key, d.intro, d.ending);
    if e.after > pos then Scan(pairs + [(d.name, e.value)], e.after) else Scan(pairs, pos)
  }

  /** When the field's key, intro and ending are located in the read-ahead window, the
      pair appended is the field's name with exactly the text between them. */
  lemma ExtraStepHit(txt: string, d: ExtraField, pairs: seq<Pair>, pos: int, kp: int, ip: int, ep: int)
    requires Located(txt, pos, pos + ReadAheadBlock, d.key, d.intro, d.ending, kp, ip, ep)
    requires ep + |d.ending| > pos
    ensures 0 <= ip + |d.intro| <= ep <= |txt|
    ensures ExtraStep(txt, d, pairs, pos).pairs == pairs + [(d.name, txt[ip + |d.intro|..ep])]
    ensures ExtraStep(txt, d, pairs, pos).pos == ep + |d.ending|
  {
    ExtractRawHit(txt, pos, pos + ReadAheadBlock, d.key, d.intro, d.ending, kp, ip, ep);
  }

  /** When the key, or the intro after it, or the ending after that, is missing from the
      read-ahead window, the field is skipped and the position stays. */
  lemma ExtraStepMiss(txt: string, d: ExtraField, pairs: seq<Pair>, pos: int, kp: int, ip: int)
    requires var hi := pos + ReadAheadBlock;
             || Absent(txt, d.key, pos, hi)
             || (FirstAt(txt, d.key, pos, hi, kp) && Absent(txt, d.intro, kp + |d.key|, hi))
             || (&& FirstAt(txt, d.key, pos, hi, kp)
                 && FirstAt(txt, d.intro, kp + |d.key|, hi, ip)
                 && Absent(txt, d.ending, ip + |d.intro|, hi))
    ensures ExtraStep(txt, d, pairs, pos).pairs == pairs
    ensures ExtraStep(txt, d, pairs, pos).pos == pos
  {
    ExtractRawMiss(txt, pos, pos + ReadAheadBlock, d.key, d.intro, d.ending, kp, ip);
  }

  /** The walk over the extra-field list, in list order. */
  function ScanExtras(txt: string, defs: seq<ExtraField>, pairs: seq<Pair>, pos: int): (r: Scan)
    ensures |pairs| <= |r.pairs| <= |pairs| + |defs|
    ensures r.pairs[..|pairs|] == pairs
    ensures pos <= r.pos
    ensures forall j :: |pairs| <= j < |r.pairs| ==> r.pairs[j].0 in ExtraNames(defs)
    decreases |defs|
  {
    if defs == [] then Scan(pairs, pos)
    else
      var s := ExtraStep(txt, defs[0], pairs, pos);
      var r := ScanExtras(txt, defs[1..], s.pairs, s.pos);
      ExtraNamesByIndex(defs);
      ExtraNamesByIndex(defs[1..]);
      assert forall j :: 0 <= j < |defs[1..]| ==> ExtraNames(defs[1..])[j] == ExtraNames(defs)[j + 1];
      r
  }

  // ---------------------------------------------------------------- value classes

  const OnOffNames: set<string> := {"flow_pump_on", "external_request", "ext_switch_heating_cooling",
                                    "ext_hotwater_signal", "hotwater_circulation_pump", "siphon_heating"}
  const OkProblemNames: set<string> := {"failure_eheating", "dewpoint_humidity_alarm", "high_pressure_error"}
  const InvertedOnOffName := "ew_evu_lock_contact"

  datatype ValueClass = OnOff | OkProblem | InvertedOnOff | Plain

  /** The interpretation class of a semantic key. The inverted class is tested as a
      substring test against "ew_evu_lock_contact", exactly as the device client does. */
  function ClassOf(name: string): ValueClass
  {
    if name in OnOffNames then OnOff
    else if name in OkProblemNames then OkProblem
    else if Find(InvertedOnOffName, name, 0, |InvertedOnOffName|) != -1 then InvertedOnOff
    else Plain
  }

  /** Every semantic key that is a piece of "ew_evu_lock_contact" (and is in neither
      other class) gets the inverted interpretation, not only that key itself. */
  lemma InvertedClassIsSubstringTest(name: string)
    requires name !in OnOffNames && name !in OkProblemNames
    ensures ClassOf(name) == InvertedOnOff <==> Contains(InvertedOnOffName, name)
  {
    FindWholeText(InvertedOnOffName, name);
  }

  /** Digital values "1"/"0" shown as words according to the key's class. */
  function Reinterpret(name: string, value: string): (r: string)
    ensures value != "1" && value != "0" ==> r == value
    ensures ClassOf(name) == Plain ==> r == value
    ensures name in OnOffNames ==> (value == "1" ==> r == "on") && (value == "0" ==> r == "off")
    ensures name in OkProblemNames ==> (value == "1" ==> r == "OK") && (value == "0" ==> r == "Problem!")
    ensures name == InvertedOnOffName ==> (value == "1" ==> r == "off") && (value == "0" ==> r == "on")
    ensures ClassOf(name) == InvertedOnOff ==> (value == "1" ==> r == "off") && (value == "0" ==> r == "on")
  {
    assert name == InvertedOnOffName ==> ClassOf(name) == InvertedOnOff by {
      if name == InvertedOnOffName {
        OccursAtSlice(InvertedOnOffName, name, 0);
        assert InvertedOnOffName[0..|name|] == name;
        assert InWindow(InvertedOnOffName, name, 0, |InvertedOnOffName|, 0);
      }
    }
    match ClassOf(name)
    case OnOff => if value == "1" then "on" else if value == "0" then "off" else value
    case OkProblem => if value == "1" then "OK" else if value == "0" then "Problem!" else value
    case InvertedOnOff => if value == "1" then "off" else if value == "0" then "on" else value
    case Plain => value
  }

  // ---------------------------------------------------------------- sensor table

  /** A short field id with its `#n` disambiguation suffix removed. */
  function StripHash(id: string): (r: string)
    ensures '#' !in r
    ensures r <= id
    ensures '#' in id ==> |r| < |id| && id[|r|] == '#'
    ensures '#' !in id ==> r == id
  {
    FindChar(id, '#');
    FindSpec(id, "#", 0, |id|);
    var hashPos := Find(id, "#", 0, |id|);
    if hashPos != -1 then
      OccursAtChar(id, '#', hashPos);
      assert '#' !in id[0..hashPos] by {
        forall k | 0 <= k < hashPos ensures id[0..hashPos][k] != '#' {
          OccursAtChar(id, '#', k);
        }
      }
      id[0..hashPos]
    else id
  }

  /** The marker a sensor is searched by: a short id (at most five characters, suffix
      stripped) framed as a table row key, or a long localized description. */
  function SensorMarker(id: string): string
  {
    if |id| <= 5 then SearchMarker(StripHash(id), "") else SearchMarker("", id)
  }

  /** The outcome of one sensor entry, or of the sensor walk: the pairs found so far,
      the carried position, the service-mode flag and whether the walk ended early
      because the page has no photovoltaic section. */
  datatype SensorScan = SensorScan(pairs: seq<Pair>, pos: int, serviceMode: bool, stopped: bool)

  /** The walk ends early at the service-section entry when not in service mode and
      the page has no photovoltaic section after `pos`. */
  predicate StopsAt(txt: string, def: SensorDef, pos: int, serviceMode: bool)
  {
    def.1 == ServiceSectionName && !serviceMode && Find(txt, PvMarker, pos, |txt|) == -1
  }

  /** The position the entry is searched from: unchanged for ordinary entries; for the
      service-section entry either resynchronised to 50 characters before the entry's
      id (service mode) or moved to the photovoltaic section marker. */
  function ResyncPos(txt: string, def: SensorDef, pos: int, serviceMode: bool): (p: int)
    ensures def.1 != ServiceSectionName ==> p == pos
    ensures def.1 == ServiceSectionName && !serviceMode && !StopsAt(txt, def, pos, serviceMode)
            ==> FirstAt(txt, PvMarker, pos, |txt|, p)
    ensures def.1 == ServiceSectionName && serviceMode ==>
              || (Absent(txt, def.0, pos, |txt|) && p == pos)
              || FirstAt(txt, def.0, pos, |txt|, p + ServiceResyncBack)
  {
    FindSpec(txt, def.0, pos, |txt|);
    FindSpec(txt, PvMarker, pos, |txt|);
    if def.1 != ServiceSectionName then pos
    else if serviceMode then
      var a := Find(txt, def.0, pos, |txt|);
      if a != -1 then a - ServiceResyncBack else pos
    else Find(txt, PvMarker, pos, |txt|)
  }

  /** The cell extraction for one sensor entry, from the (resynchronised) position. */
  function SensorExtract(txt: string, id: string, pos: int): (e: Extracted)
    ensures pos <= e.after
  {
    if |id| <= 5 then ExtractStr(txt, pos, StripHash(id), "") else ExtractStr(txt, pos, "", id)
  }

  /** When the entry's marker and the two cell boundaries after it are located in the
      read-ahead window, the cell text between the boundaries is extracted. */
  lemma SensorExtractHit(txt: string, id: string, pos: int, kp: int, ip: int, ep: int)
    requires Located(txt, pos, pos + ReadAheadBlock, SensorMarker(id), ValueIntro, ValueEnding, kp, ip, ep)
    ensures 0 <= ip + |ValueIntro| <= ep <= |txt|
    ensures SensorExtract(txt, id, pos).value == txt[ip + |ValueIntro|..ep]
    ensures SensorExtract(txt, id, pos).after == ep + |ValueEnding|
  {
    ExtractRawHit(txt, pos, pos + ReadAheadBlock, SensorMarker(id), ValueIntro, ValueEnding, kp, ip, ep);
    if |id| <= 5 {
      assert SearchMarker(StripHash(id), "") == SensorMarker(id);
    } else {
      assert SearchMarker("", id) == SensorMarker(id);
    }
  }

  /** When the entry's marker, or a cell boundary after it, or the next cell boundary is
      missing from the read-ahead window, the extraction stays at the position. */
  lemma SensorExtractMiss(txt: string, id: string, pos: int, kp: int, ip: int)
    requires var hi := pos + ReadAheadBlock;
             var m := SensorMarker(id);
             || Absent(txt, m, pos, hi)
             || (FirstAt(txt, m, pos, hi, kp) && Absent(txt, ValueIntro, kp + |m|, hi))
             || (&& FirstAt(txt, m, pos, hi, kp)
                 && FirstAt(txt, ValueIntro, kp + |m|, hi, ip)
                 && Absent(txt, ValueEnding, ip + |ValueIntro|, hi))
    ensures SensorExtract(txt, id, pos).after == pos
  {
    ExtractRawMiss(txt, pos, pos + ReadAheadBlock, SensorMarker(id), ValueIntro, ValueEnding, kp, ip);
    if |id| <= 5 {
      assert SearchMarker(StripHash(id), "") == SensorMarker(id);
    } else {
      assert SearchMarker("", id) == SensorMarker(id);
    }
  }

  /** The service-mode key is interpreted as a plain value, so the service-mode test
      is reached for it. */
  lemma ServiceModeNameIsPlain()
    ensures ClassOf(ServiceModeName) == Plain
  {
    assert ServiceModeName[1] == 'i' && 'i' !in InvertedOnOffName;
    FindMissingChar(InvertedOnOffName, ServiceModeName, 0, |InvertedOnOffName|, 1);
  }

  /** One entry of the sensor table, searched from `pos` in the given service mode. */
  function SensorStep(txt: string, def: SensorDef, pairs: seq<Pair>, pos: int, serviceMode: bool): (r: SensorScan)
    ensures r.stopped <==> StopsAt(txt, def, pos, serviceMode)
    ensures r.stopped ==> r.pairs == pairs && r.pos == pos
    ensures || r.pairs == pairs
            || (&& |r.pairs| == |pairs| + 1
                && r.pairs[..|pairs|] == pairs
                && r.pairs[|pairs|].0 == ResultKey(def)
                && r.pos > ResyncPos(txt, def, pos, serviceMode))
    ensures !r.stopped && r.pairs == pairs ==> r.pos == ResyncPos(txt, def, pos, serviceMode)
    ensures serviceMode ==> r.serviceMode
    ensures r.serviceMode != serviceMode <==> def.1 == ServiceModeName && !serviceMode && |r.pairs| == |pairs| + 1
  {
    if StopsAt(txt, def, pos, serviceMode) then SensorScan(pairs, pos, serviceMode, true)
    else
      var (id, name) := def;
      var p := ResyncPos(txt, def, pos, serviceMode);
      var e := SensorExtract(txt, id, p);
      ServiceModeNameIsPlain();
      var service := serviceMode || (ClassOf(name) == Plain && name == ServiceModeName && e.after > p);
      if e.after > p then SensorScan(pairs + [(ResultKey(def), Reinterpret(name, e.value))], e.after, service, false)
      else SensorScan(pairs, p, service, false)
  }

  /** When the sensor's marker, a cell boundary and the next cell boundary are located in
      the read-ahead window from the (resynchronised) position, the pair appended is the
      result key with the reinterpreted cell text, and the walk continues past it. */
  lemma SensorStepHit(txt: string, def: SensorDef, pairs: seq<Pair>, pos: int, serviceMode: bool,
                      kp: int, ip: int, ep: int)
    requires !StopsAt(txt, def, pos, serviceMode)
    requires var p := ResyncPos(txt, def, pos, serviceMode);
             Located(txt, p, p + ReadAheadBlock, SensorMarker(def.0), ValueIntro, ValueEnding, kp, ip, ep)
    ensures 0 <= ip + |ValueIntro| <= ep <= |txt|
    ensures SensorStep(txt, def, pairs, pos, serviceMode).pairs
            == pairs + [(ResultKey(def), Reinterpret(def.1, txt[ip + |ValueIntro|..ep]))]
    ensures SensorStep(txt, def, pairs, pos, serviceMode).pos == ep + |ValueEnding|
  {
    var p := ResyncPos(txt, def, pos, serviceMode);
    SensorExtractHit(txt, def.0, p, kp, ip, ep);
  }

  /** When the sensor's marker is missing from the read-ahead window, or no cell boundary
      follows it there, or no second cell boundary follows that one, nothing is appended
      and the walk stays at the (resynchronised) position. */
  lemma SensorStepMiss(txt: string, def: SensorDef, pairs: seq<Pair>, pos: int, serviceMode: bool,
                       kp: int, ip: int)
    requires !StopsAt(txt, def, pos, serviceMode)
    requires var p := ResyncPos(txt, def, pos, serviceMode);
             var hi := p + ReadAheadBlock;
             var m := SensorMarker(def.0);
             || Absent(txt, m, p, hi)
             || (FirstAt(txt, m, p, hi, kp) && Absent(txt, ValueIntro, kp + |m|, hi))
             || (&& FirstAt(txt, m, p, hi, kp)
                 && FirstAt(txt, ValueIntro, kp + |m|, hi, ip)
                 && Absent(txt, ValueEnding, ip + |ValueIntro|, hi))
    ensures SensorStep(txt, def, pairs, pos, serviceMode).pairs == pairs
    ensures SensorStep(txt, def, pairs, pos, serviceMode).pos == ResyncPos(txt, def, pos, serviceMode)
  {
    SensorExtractMiss(txt, def.0, ResyncPos(txt, def, pos, serviceMode), kp, ip);
  }

  /** A sensor row as the page lays it out: the entry's marker, the text `d` up to the
      value cell, then the value `v` between two cell boundaries. */
  function SensorRow(pre: string, id: string, d: string, v: string, rest: string): string
  {
    pre + SensorMarker(id) + d + ValueIntro + v + ValueEnding + rest
  }

  /** The sensor row's own marker and cell boundaries are the ones the extraction finds
      from `p`, when the marker does not occur earlier from `p`, no cell boundary starts
      inside `d` or inside `v`, and the row ends inside the read-ahead window. */
  predicate RowReadable(pre: string, id: string, d: string, v: string, rest: string, p: int)
  {
    var m := SensorMarker(id);
    && 0 <= p <= |pre| && |pre| + |m| + |d| + |ValueIntro| + |v| + |ValueEnding| <= p + ReadAheadBlock
    && (forall i :: p <= i < |pre| ==> !OccursAt(SensorRow(pre, id, d, v, rest), m, i))
    && (var a := |pre| + |m|;
        forall j :: a <= j < a + |d| ==> !OccursAt(SensorRow(pre, id, d, v, rest), ValueIntro, j))
    && (var b := |pre| + |m| + |d| + |ValueIntro|;
        forall j :: b <= j < b + |v| ==> !OccursAt(SensorRow(pre, id, d, v, rest), ValueEnding, j))
  }

  /** Where the marker, the two cell boundaries and the value sit in a sensor row. */
  lemma SensorRowLayout(pre: string, id: string, d: string, v: string, rest: string)
    ensures var m := SensorMarker(id);
            var ip := |pre| + |m| + |d|;
            var ep := ip + |ValueIntro| + |v|;
            var page := SensorRow(pre, id, d, v, rest);
            && |page| == ep + |ValueEnding| + |rest|
            && page[|pre|..|pre| + |m|] == m
            && page[ip..ip + |ValueIntro|] == ValueIntro
            && page[ip + |ValueIntro|..ep] == v
            && page[ep..ep + |ValueEnding|] == ValueEnding
  {
    var m := SensorMarker(id);
    var page := SensorRow(pre, id, d, v, rest);
    var ip := |pre| + |m| + |d|;
    var ep := ip + |ValueIntro| + |v|;
    assert page == pre + m + d + ValueIntro + v + ValueEnding + rest;
    assert page[|pre|..|pre| + |m|] == m;
    assert page[ip..ip + |ValueIntro|] == ValueIntro;
    assert page[ip + |ValueIntro|..ep] == v;
    assert page[ep..ep + |ValueEnding|] == ValueEnding;
  }

  /** A sensor whose marker at `kp` and cell boundaries at `ip` and `ep` are the first ones
      from the (resynchronised) position `p`, inside the read-ahead block, is reported
      with the reinterpreted cell text `v`, and the walk continues past the cell. */
  lemma SensorStepAtCell(txt: string, def: SensorDef, pairs: seq<Pair>, pos: int, serviceMode: bool,
                         p: int, kp: int, ip: int, ep: int, v: string)
    requires !StopsAt(txt, def, pos, serviceMode) && p == ResyncPos(txt, def, pos, serviceMode)
    requires 0 <= p <= kp && kp + |SensorMarker(def.0)| <= ip && ip + |ValueIntro| <= ep
    requires ep + |ValueEnding| <= p + ReadAheadBlock && ep + |ValueEnding| <= |txt|
    requires txt[kp..kp + |SensorMarker(def.0)|] == SensorMarker(def.0)
    requires txt[ip..ip + |ValueIntro|] == ValueIntro && txt[ep..ep + |ValueEnding|] == ValueEnding
    requires txt[ip + |ValueIntro|..ep] == v
    requires forall i :: p <= i < kp ==> !OccursAt(txt, SensorMarker(def.0), i)
    requires forall j :: kp + |SensorMarker(def.0)| <= j < ip ==> !OccursAt(txt, ValueIntro, j)
    requires forall j :: ip + |ValueIntro| <= j < ep ==> !OccursAt(txt, ValueEnding, j)
    ensures SensorStep(txt, def, pairs, pos, serviceMode).pairs == pairs + [(ResultKey(def), Reinterpret(def.1, v))]
    ensures SensorStep(txt, def, pairs, pos, serviceMode).pos == ep + |ValueEnding|
  {
    RowLocated(txt, p, p + ReadAheadBlock, SensorMarker(def.0), ValueIntro, ValueEnding, kp, ip, ep);
    SensorStepHit(txt, def, pairs, pos, serviceMode, kp, ip, ep);
  }

  /** Round trip: a sensor row that is readable from the entry's (resynchronised)
      position reports exactly its value `v`, reinterpreted, under the entry's result
      key, and the walk continues just past the row's value cell. */
  lemma SensorRowRoundTrip(def: SensorDef, pairs: seq<Pair>, pos: int, serviceMode: bool,
                           pre: string, d: string, v: string, rest: string)
    requires !StopsAt(SensorRow(pre, def.0, d, v, rest), def, pos, serviceMode)
    requires RowReadable(pre, def.0, d, v, rest, ResyncPos(SensorRow(pre, def.0, d, v, rest), def, pos, serviceMode))
    ensures SensorStep(SensorRow(pre, def.0, d, v, rest), def, pairs, pos, serviceMode).pairs
            == pairs + [(ResultKey(def), Reinterpret(def.1, v))]
    ensures SensorStep(SensorRow(pre, def.0, d, v, rest), def, pairs, pos, serviceMode).pos
            == |pre| + |SensorMarker(def.0)| + |d| + |ValueIntro| + |v| + |ValueEnding|
  {
    var ip := |pre| + |SensorMarker(def.0)| + |d|;
    SensorRowLayout(pre, def.0, d, v, rest);
    SensorStepAtCell(SensorRow(pre, def.0, d, v, rest), def, pairs, pos, serviceMode,
                     ResyncPos(SensorRow(pre, def.0, d, v, rest), def, pos, serviceMode),
                     |pre|, ip, ip + |ValueIntro| + |v|, v);
  }

  /** Only the service-section entry can move the position backwards, and only in
      service mode (the resynchronisation to 50 characters before the entry's id). */
  lemma SensorStepPosition(txt: string, def: SensorDef, pairs: seq<Pair>, pos: int, serviceMode: bool)
    ensures def.1 != ServiceSectionName ==> pos <= SensorStep(txt, def, pairs, pos, serviceMode).pos
    ensures SensorStep(txt, def, pairs, pos, serviceMode).pos < pos ==> def.1 == ServiceSectionName && serviceMode
  {
  }

  /** The walk over the sensor table, in table order, until its end or an early stop. */
  function ScanSensors(txt: string, defs: seq<SensorDef>, pairs: seq<Pair>, pos: int, serviceMode: bool): (r: SensorScan)
    ensures |pairs| <= |r.pairs| <= |pairs| + |defs|
    ensures r.pairs[..|pairs|] == pairs
    ensures serviceMode ==> r.serviceMode
    decreases |defs|
  {
    if defs == [] then SensorScan(pairs, pos, serviceMode, false)
    else
      var s := SensorStep(txt, defs[0], pairs, pos, serviceMode);
      if s.stopped then s else ScanSensors(txt, defs[1..], s.pairs, s.pos, s.serviceMode)
  }

  /** The walk from entry `i` is the step at entry `i` followed, unless that step ends
      the walk, by the walk from entry `i + 1`. */
  lemma ScanSensorsFrom(txt: string, defs: seq<SensorDef>, i: nat, pairs: seq<Pair>, pos: int, serviceMode: bool)
    requires i < |defs|
    ensures var s := SensorStep(txt, defs[i], pairs, pos, serviceMode);
            ScanSensors(txt, defs[i..], pairs, pos, serviceMode).pairs
            == if s.stopped then pairs else ScanSensors(txt, defs[i + 1..], s.pairs, s.pos, s.serviceMode).pairs
  {
    assert defs[i..][0] == defs[i] && defs[i..][1..] == defs[i + 1..];
  }

  /** An early stop happens only at a service-section entry reached outside service
      mode (that it reports nothing for that entry or any after it is `ScanSensorsFrom`). */
  lemma {:induction false} ScanSensorsStopsAtServiceSection(txt: string, defs: seq<SensorDef>, pairs: seq<Pair>,
                                                            pos: int, serviceMode: bool)
    requires ScanSensors(txt, defs, pairs, pos, serviceMode).stopped
    ensures !ScanSensors(txt, defs, pairs, pos, serviceMode).serviceMode
    ensures exists i :: 0 <= i < |defs| && defs[i].1 == ServiceSectionName
    decreases |defs|
  {
    var s := SensorStep(txt, defs[0], pairs, pos, serviceMode);
    if s.stopped {
      assert defs[0].1 == ServiceSectionName;
    } else {
      ScanSensorsStopsAtServiceSection(txt, defs[1..], s.pairs, s.pos, s.serviceMode);
      var i :| 0 <= i < |defs[1..]| && defs[1..][i].1 == ServiceSectionName;
      assert defs[i + 1].1 == ServiceSectionName;
    }
  }

  // ---------------------------------------------------------------- the whole page

  /** The outcome of one settings fetch: the language in effect afterwards, the pairs
      reported, and whether a re-login is requested. */
  datatype ParseOutcome = ParseOutcome(lang: Language, pairs: seq<Pair>, relogin: bool)

  /** The pairs read from a page identified at `start`, with the given extra-field list
      and sensor table: the extra fields from the identification marker on, then, when
      the inputs/outputs section follows, the sensor table from that section's marker on. */
  function ParseBody(txt: string, start: int, extras: seq<ExtraField>, sensors: seq<SensorDef>): (pairs: seq<Pair>)
    ensures |pairs| <= |extras| + |sensors|
  {
    var ex := ScanExtras(txt, extras, [], start);
    var io := Find(txt, InputsOutputsMarker, ex.pos, |txt|);
    if io == -1 then ex.pairs
    else ScanSensors(txt, sensors, ex.pairs, io, false).pairs
  }

  /** Parse a settings page delivered with status 200. */
  function ParseSettings(lang: Language, txt: string): (r: ParseOutcome)
    ensures r.relogin <==> Find(txt, CsrfInvalidMarker, 0, CsrfInvalidWindow) != -1
    ensures r.relogin ==> r.lang == lang && r.pairs == []
    ensures !r.relogin ==> r.lang == SelectLanguage(lang, txt).lang
    ensures |r.pairs| <= |ExtraData(r.lang)| + |SensorDefinitions(r.lang)|
  {
    if Find(txt, CsrfInvalidMarker, 0, CsrfInvalidWindow) != -1 then ParseOutcome(lang, [], true)
    else
      var probe := SelectLanguage(lang, txt);
      if probe.pos == -1 then ParseOutcome(probe.lang, [], false)
      else ParseOutcome(probe.lang, ParseBody(txt, probe.pos, ExtraData(probe.lang), SensorDefinitions(probe.lang)), false)
  }

  /** The CSRF-invalid test that requests a re-login fires exactly when the marker lies
      wholly within the first 128 characters. */
  lemma CsrfInvalidOnlyAtStart(txt: string)
    ensures Find(txt, CsrfInvalidMarker, 0, CsrfInvalidWindow) != -1
            <==> exists i :: 0 <= i && i + |CsrfInvalidMarker| <= CsrfInvalidWindow && OccursAt(txt, CsrfInvalidMarker, i)
  {
    FindSpec(txt, CsrfInvalidMarker, 0, CsrfInvalidWindow);
    if exists i :: 0 <= i && i + |CsrfInvalidMarker| <= CsrfInvalidWindow && OccursAt(txt, CsrfInvalidMarker, i) {
      var i :| 0 <= i && i + |CsrfInvalidMarker| <= CsrfInvalidWindow && OccursAt(txt, CsrfInvalidMarker, i);
      assert InWindow(txt, CsrfInvalidMarker, 0, CsrfInvalidWindow, i);
    }
  }

  /** A page in neither language yields nothing, and the language stays switched. */
  lemma UnreadablePage(lang: Language, txt: string)
    requires Find(txt, CsrfInvalidMarker, 0, CsrfInvalidWindow) == -1
    requires !Contains(txt, Identification(En)) && !Contains(txt, Identification(De))
    ensures ParseSettings(lang, txt) == ParseOutcome(Flip(lang), [], false)
  {
    assert !Contains(txt, Identification(lang)) && !Contains(txt, Identification(Flip(lang)));
  }

  /** A page that identifies exactly one language leaves the parser in that language,
      whatever the language before; so parsing a second page of the same language
      never switches again. */
  lemma LanguageSettles(lang: Language, t1: string, t2: string, l: Language)
    requires Find(t1, CsrfInvalidMarker, 0, CsrfInvalidWindow) == -1
    requires Find(t2, CsrfInvalidMarker, 0, CsrfInvalidWindow) == -1
    requires Contains(t1, Identification(l)) && !Contains(t1, Identification(Flip(l)))
    requires Contains(t2, Identification(l))
    ensures ParseSettings(lang, t1).lang == l
    ensures ParseSettings(ParseSettings(lang, t1).lang, t2).lang == l
  {
    if lang != l {
      assert Flip(lang) == l;
    }
  }

  /** Without the inputs/outputs section marker only the extra-field pairs are reported;
      with it, the extra-field pairs come first and the sensor pairs follow. */
  lemma ExtrasComeFirst(txt: string, start: int, extras: seq<ExtraField>, sensors: seq<SensorDef>)
    ensures var ex := ScanExtras(txt, extras, [], start);
            var body := ParseBody(txt, start, extras, sensors);
            && |ex.pairs| <= |body|
            && body[..|ex.pairs|] == ex.pairs
            && (Find(txt, InputsOutputsMarker, ex.pos, |txt|) == -1 ==> body == ex.pairs)
  {
  }

  /** One settings fetch: a transport failure requests a re-login and reports nothing;
      any status other than 200 reports nothing; a 200 page is parsed. */
  function Fetch(lang: Language, resp: HttpResponse): (r: ParseOutcome)
    ensures resp.TransportError? ==> r == ParseOutcome(lang, [], true)
    ensures resp.Response? && resp.status != 200 ==> r == ParseOutcome(lang, [], false)
    ensures r.relogin ==> r.pairs == [] && r.lang == lang
  {
    match resp
    case TransportError => ParseOutcome(lang, [], true)
    case Response(status, txt) => if status == 200 then ParseSettings(lang, txt) else ParseOutcome(lang, [], false)
  }
}
