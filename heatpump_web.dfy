/** The stateful side of the heat-pump web client: the response container that the
    parser appends to, and the client object that keeps the CSRF token and the
    language of its field catalog between calls. HTTP exchanges are inputs
    (`HttpResponse` values); the parsing is proved to agree with the pure
    specification in `IdmProtocol`. */
module HeatpumpWeb {
  import opened Wrappers
  import opened TextSearch
  import opened Extraction
  import opened Catalog
  import opened IdmProtocol

  /** The ordered (key, value) list one data update produces. */
  class IdmResponseData {
    var response: seq<Pair>

    constructor()
      ensures response == []
    {
      response := [];
    }

    /** Append one pair at the end: the count grows by one, the last pair (index -1) is
        the new one, and every earlier index still reads the same pair. */
    method AddResp(key: string, answer: string)
      modifies this
      ensures response == old(response) + [(key, answer)]
      ensures LenResp() == old(LenResp()) + 1
      ensures GetResp(-1) == (key, answer)
      ensures forall i :: 0 <= i < old(LenResp()) ==> GetResp(i) == old(GetResp(i))
    {
      response := response + [(key, answer)];
    }

    /** The number of pairs held. */
    function LenResp(): nat
      reads this
    {
      |response|
    }

    /** The pair at index `i`; a negative index counts from the end, as list indexing
        does in the client's language. */
    function GetResp(i: int): Pair
      reads this
      requires -|response| <= i < |response|
    {
      if i >= 0 then response[i] else response[|response| + i]
    }
  }

  /** The extra-field walk of a data update: every field of `extras` in order,
      searched from the position carried over from the previous hit. */
  method WalkExtras(txt: string, extras: seq<ExtraField>, start: int, answerData: IdmResponseData)
    returns (startPos: int)
    modifies answerData
    ensures answerData.response == ScanExtras(txt, extras, old(answerData.response), start).pairs
    ensures startPos == ScanExtras(txt, extras, old(answerData.response), start).pos
  {
    ghost var final := ScanExtras(txt, extras, answerData.response, start);
    startPos := start;
    var afterPos := 0;
    for i := 0 to |extras|
      invariant ScanExtras(txt, extras[i..], answerData.response, startPos).pairs == final.pairs
      invariant ScanExtras(txt, extras[i..], answerData.response, startPos).pos == final.pos
    {
      assert extras[i..][0] == extras[i] && extras[i..][1..] == extras[i + 1..];
      var ExtraField(key, startDel, endDel, sensorKey) := extras[i];
      var e := ExtractRaw(txt, startPos, startPos + ReadAheadBlock, key, startDel, endDel);
      var valStr := e.value;
      afterPos := e.after;
      if afterPos > startPos {
        answerData.AddResp(sensorKey, valStr);
        startPos := afterPos;
      }
    }
  }

  /** The interpretation of one sensor value by its semantic key `v`: digital "1"/"0"
      become words for the three digital classes; a found service-mode entry switches
      service mode on. */
  method InterpretValue(v: string, value: string, advanced: bool, serviceMode: bool)
    returns (valStr: string, service: bool)
    ensures valStr == Reinterpret(v, value)
    ensures service == (serviceMode || (ClassOf(v) == Plain && v == ServiceModeName && advanced))
  {
    valStr, service := value, serviceMode;
    if v in OnOffNames {
      if valStr == "1" {
        valStr := "on";
      } else if valStr == "0" {
        valStr := "off";
      }
    } else if v in OkProblemNames {
      if valStr == "1" {
        valStr := "OK";
      } else if valStr == "0" {
        valStr := "Problem!";
      }
    } else if Find(InvertedOnOffName, v, 0, |InvertedOnOffName|) != -1 {
      if valStr == "1" {
        valStr := "off";
      } else if valStr == "0" {
        valStr := "on";
      }
    } else if v == ServiceModeName && advanced {
      service := true;
    }
  }

  /** The sensor-table walk of a data update, from the inputs/outputs section marker:
      the service-section entry resynchronises the position (service mode) or moves
      to the photovoltaic section, ending the walk when there is none; the service
      mode is local to one walk and starts off. */
  method WalkSensors(txt: string, sensors: seq<SensorDef>, start: int, answerData: IdmResponseData)
    modifies answerData
    ensures answerData.response == ScanSensors(txt, sensors, old(answerData.response), start, false).pairs
  {
    ghost var final := ScanSensors(txt, sensors, answerData.response, start, false);
    var startPos := start;
    var afterPos := start;
    var serviceMode := false;
    var i := 0;
    while i < |sensors|
      invariant 0 <= i <= |sensors|
      invariant ScanSensors(txt, sensors[i..], answerData.response, startPos, serviceMode).pairs == final.pairs
    {
      ScanSensorsFrom(txt, sensors, i, answerData.response, startPos, serviceMode);
      ghost var pos0 := startPos;
      ghost var step := SensorStep(txt, sensors[i], answerData.response, startPos, serviceMode);
      var (k, v) := sensors[i];
      var sensorKey := k;
      if v == ServiceSectionName {
        if serviceMode {
          afterPos := Find(txt, k, startPos, |txt|);
          if afterPos != -1 {
            startPos := afterPos - ServiceResyncBack;
          }
        } else {
          startPos := Find(txt, PvMarker, startPos, |txt|);
          if startPos == -1 {
            assert step.stopped && step.pairs == answerData.response;
            break;
          }
        }
      }
      assert startPos == ResyncPos(txt, sensors[i], pos0, serviceMode);
      ghost var e0 := SensorExtract(txt, k, startPos);
      ghost var service := serviceMode || (ClassOf(v) == Plain && v == ServiceModeName && e0.after > startPos);
      var valStr;
      if |k| <= 5 {
        var searchK := k;
        var hashPos := Find(k, "#", 0, |k|);
        if hashPos != -1 {
          searchK := k[0..hashPos];
        }
        var e := ExtractStr(txt, startPos, searchK, "");
        valStr, afterPos := e.value, e.after;
      } else {
        sensorKey := v;
        var e := ExtractStr(txt, startPos, "", k);
        valStr, afterPos := e.value, e.after;
      }
      assert valStr == e0.value && afterPos == e0.after;
      valStr, serviceMode := InterpretValue(v, valStr, afterPos > startPos, serviceMode);
      assert valStr == Reinterpret(v, e0.value) && serviceMode == service;
      if afterPos > startPos {
        answerData.AddResp(sensorKey, valStr);
        startPos := afterPos;
      }
      assert !step.stopped && answerData.response == step.pairs && startPos == step.pos && serviceMode == step.serviceMode;
      i := i + 1;
    }
  }

  /** The web client of one heat pump. */
  class IdmHeatpumpWeb {
    const host: string
    const pin: string
    const timeout: int
    /** The token of the current session, once a login has succeeded. */
    var csrfToken: Option<string>
    /** The catalog language; the identification string, the extra-field list and the
        sensor table are all chosen by it, so they always switch together. */
    var lang: Language

    constructor(host: string, pin: string, timeout: int)
      ensures this.host == host && this.pin == pin && this.timeout == timeout
      ensures csrfToken == None && lang == En
    {
      this.host := host;
      this.pin := pin;
      this.timeout := timeout;
      csrfToken := None;
      lang := En;
    }

    function IdentificationString(): string
      reads this
    {
      Identification(lang)
    }

    function ExtraDefn(): seq<ExtraField>
      reads this
    {
      ExtraData(lang)
    }

    function SensorDefn(): seq<SensorDef>
      reads this
    {
      SensorDefinitions(lang)
    }

    /** Log in with the PIN; `resp` is what the device answers to the login post.
        The token is replaced only on success. */
    method IdmLogin(resp: HttpResponse) returns (code: string)
      modifies this`csrfToken
      ensures code == LoginCode(LoginOf(resp).status)
      ensures csrfToken == AfterLogin(old(csrfToken), resp)
    {
      match resp
      case TransportError =>
        code := "cannot_connect";
      case Response(status, txt) =>
        if 400 <= status < 600 {
          // an error status raises, and the raise is reported like a transport failure
          code := "cannot_connect";
          return;
        }
        if status == 200 {
          if Find(txt, AuthorizationMarker, 0, |txt|) > 0 {
            return "invalid_pin";
          }
          var startpos := Find(txt, CsrfMarker, 0, |txt|);
          if startpos == -1 {
            return "unknown";
          }
          var endpos := Find(txt, "\"", startpos + 12, startpos + 132);
          if endpos == -1 {
            return "unknown";
          }
          csrfToken := Some(txt[startpos + 12..endpos]);
          return "success";
        }
        code := "cannot_connect";
    }

    /** Keep the catalog language when the page carries its identification string;
        otherwise switch all three catalog fields to the other language. The position
        of the identification string is returned, or -1 when the page carries neither. */
    method SelectCatalog(txt: string) returns (startPos: int)
      modifies this`lang
      ensures Probe(lang, startPos) == SelectLanguage(old(lang), txt)
    {
      startPos := Find(txt, IdentificationString(), 0, |txt|);
      if startPos == -1 {
        if lang == En {
          lang := De;
        } else {
          lang := En;
        }
        startPos := Find(txt, IdentificationString(), 0, |txt|);
      }
    }

    /** Parse a settings page delivered with status 200, switching the catalog language
        when the page is in the other one; `relogin` reports an invalid CSRF token. */
    method ParsePage(txt: string) returns (answerData: IdmResponseData, relogin: bool)
      modifies this`lang
      ensures fresh(answerData)
      ensures answerData.response == ParseSettings(old(lang), txt).pairs
      ensures lang == ParseSettings(old(lang), txt).lang
      ensures relogin == ParseSettings(old(lang), txt).relogin
    {
      answerData := new IdmResponseData();
      relogin := false;
      var startPos := Find(txt, CsrfInvalidMarker, 0, CsrfInvalidWindow);
      if startPos != -1 {
        relogin := true;
        return;
      }
      startPos := SelectCatalog(txt);
      if startPos == -1 {
        return;
      }
      startPos := WalkExtras(txt, ExtraDefn(), startPos, answerData);
      var afterPos := Find(txt, InputsOutputsMarker, startPos, |txt|);
      if afterPos == -1 {
        return;
      }
      startPos := afterPos;
      WalkSensors(txt, SensorDefn(), startPos, answerData);
    }

    /** Fetch and parse the settings page; `resp` is the device's answer to the fetch
        and `reloginResp` its answer to the login that a transport failure or an
        invalid CSRF token triggers. */
    method GetDataUpdate(resp: HttpResponse, reloginResp: HttpResponse) returns (answerData: IdmResponseData)
      modifies this`csrfToken, this`lang
      ensures fresh(answerData)
      ensures answerData.response == Fetch(old(lang), resp).pairs
      ensures lang == Fetch(old(lang), resp).lang
      ensures Fetch(old(lang), resp).relogin ==> csrfToken == AfterLogin(old(csrfToken), reloginResp)
      ensures !Fetch(old(lang), resp).relogin ==> csrfToken == old(csrfToken)
    {
      match resp
      case TransportError =>
        answerData := new IdmResponseData();
        var _ := IdmLogin(reloginResp);
      case Response(status, txt) =>
        if status == 200 {
          var relogin;
          answerData, relogin := ParsePage(txt);
          if relogin {
            var _ := IdmLogin(reloginResp);
          }
        } else {
          answerData := new IdmResponseData();
        }
    }
  }
}
