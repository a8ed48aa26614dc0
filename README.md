# iDM heat-pump web client — a verified Dafny model

This project models the core of the Home Assistant integration `idm_hpweb`, which reads
values from the web interface of an iDM heat pump. It covers four parts:

- **Text extraction** (`extraction.dfy`). A value is found in a window of the page in three
  steps: first the key marker, then the value intro after it, then the value ending after
  that. The result is the text in between and the position just past the ending. A miss
  leaves the position unchanged.
- **Bounded substring search** (`text_search.dfy`). This is Python's
  `str.find(sub, start, end)`, with its slice-index adjustment for negative or oversized
  bounds. A match must lie wholly inside the window.
- **Protocol text logic** (`idm_protocol.dfy`, `catalog.dfy`), as pure specification
  functions:
  - classifying the login page and reading its CSRF token;
  - parsing the settings page: detecting an invalid CSRF token in the first 128 characters;
    choosing between the English and German field catalogs; walking the extra-field list;
    walking the sensor table.
  - The sensor walk has special cases. The service-section entry either resynchronises
    50 characters before its id (service mode) or jumps to the photovoltaic section, and it
    ends the walk early when there is none. Digital values "1"/"0" are shown as on/off,
    OK/Problem! or inverted on/off.
- **The stateful client and the configuration flow** (`heatpump_web.dfy`,
  `config_flow.dfy`).
  - The response container and the client object are classes. The client keeps the CSRF
    token and the catalog language between calls.
  - Their methods follow the source's loops and branches, and are proved equal to the
    specification functions.
  - The configuration flow's two steps build their error maps in place, with the source's
    check order. The minimum cycle time of 2 seconds comes from
    `custom_components/idm_hpweb/const.py` line 11.

HTTP exchanges are inputs. A `HttpResponse` is either a status code with a body text, or a
transport failure. A data update that needs a re-login takes the device's answer to that
login as a second input.

Some behaviour is modelled exactly as the code does it:

- The inverted on/off class is chosen by `v in ("ew_evu_lock_contact")`, which is a
  substring test on a string, not a tuple membership. `ClassOf` uses a substring test too,
  and `InvertedClassIsSubstringTest` states the consequence. Only
  `ew_evu_lock_contact` itself is in the catalogs, so the catalog never sees a difference.
- The "Authorization Required" marker counts only at an index greater than 0.
- The sensor tables are dictionaries in the source. Their keys are all distinct, so a
  sequence of pairs in declaration order is their iteration order.
- The data update and the flow steps are split into smaller methods, each a contiguous
  piece of the source function:
  - `ParsePage`, `SelectCatalog`, `WalkExtras`, `WalkSensors` and `InterpretValue` for
    `get_DataUpdate`;
  - `StepUser` and `StepReconfigure` for the two flow steps.

## Model

All source paths are under `custom_components/idm_hpweb/`.

| member | source | states |
|---|---|---|
| TextSearch.Find | custom_components/idm_hpweb/idmHeatpumpWeb.py:452-460 | a non-negative result is a match lying wholly inside the window, after Python's slice-bound adjustment |
| TextSearch.FindFromFirst | custom_components/idm_hpweb/idmHeatpumpWeb.py:452-460 | the left-to-right scan returns -1 only when no match lies in range, and never skips an earlier match |
| TextSearch.FindSpec | custom_components/idm_hpweb/idmHeatpumpWeb.py:452-460 | `find` returns -1 exactly when the window holds no occurrence, and otherwise the first occurrence in the window |
| TextSearch.FindIsFirst | custom_components/idm_hpweb/idmHeatpumpWeb.py:452-460 | the first occurrence inside the window is exactly what `find` returns |
| TextSearch.FindWholeText | custom_components/idm_hpweb/idmHeatpumpWeb.py:292 | searching the whole text succeeds exactly when the text contains the marker |
| TextSearch.FindChar | custom_components/idm_hpweb/config_flow.py:57 | a whole-string search for one character succeeds exactly when the character is in the string |
| TextSearch.FindMissingChar | custom_components/idm_hpweb/idmHeatpumpWeb.py:396 | helper: a text lacking one character of the pattern holds no occurrence of it (used for the membership tests of the value-class lists) |
| TextSearch.OccursInSlice | custom_components/idm_hpweb/idmHeatpumpWeb.py:464 | helper: an occurrence inside a slice is an occurrence in the whole text, within the slice's end (used for the search inside the read-ahead block) |
| Extraction.ExtractRaw | custom_components/idm_hpweb/idmHeatpumpWeb.py:451-464 | the returned position never moves back; an advancing result ends inside the window, at least key + intro + value + ending past the window start |
| Extraction.ExtractRawHit | custom_components/idm_hpweb/idmHeatpumpWeb.py:451-464 | when key, intro and ending are found in order inside the window, the value is exactly the text between the intro's end and the ending, and the position is just past the ending (so it advances when the ending is non-empty) |
| Extraction.RowLocated | custom_components/idm_hpweb/idmHeatpumpWeb.py:451-464 | helper: a key, intro and ending placed in order inside the window are the ones the three searches find when none of them starts earlier where its search would see it |
| Extraction.ExtractRawMiss | custom_components/idm_hpweb/idmHeatpumpWeb.py:452-462 | a missing key, a missing intro after the first key, or a missing ending after the first intro leaves the position unchanged |
| Extraction.ExtractRawFound | custom_components/idm_hpweb/idmHeatpumpWeb.py:451-464 | every advancing extraction had its three markers located in order, each the first in its part of the window |
| Extraction.LocatedValueHasNoEnding | custom_components/idm_hpweb/idmHeatpumpWeb.py:460-464 | the located value never contains the value ending |
| Extraction.ExtractedValueHasNoEnding | custom_components/idm_hpweb/idmHeatpumpWeb.py:451-464 | a value returned by an advancing extraction never contains the value ending |
| Extraction.ExtractStr | custom_components/idm_hpweb/idmHeatpumpWeb.py:471-482 | an advancing table-cell extraction ends within the 4092-character read-ahead window |
| Catalog.Flip | custom_components/idm_hpweb/idmHeatpumpWeb.py:295-302 | the language switch always selects the other language |
| Catalog.SensorTablesShareKeys | custom_components/idm_hpweb/idmHeatpumpWeb.py:45-190 | the German and English sensor tables report the same semantic keys in the same order |
| Catalog.SensorTablesReportSameKeys | custom_components/idm_hpweb/idmHeatpumpWeb.py:45-190 | the German and English sensor tables report their readings under the same keys in the same order: the raw id for short ids, the semantic key for descriptions |
| Catalog.ExtraListsShareKeys | custom_components/idm_hpweb/idmHeatpumpWeb.py:22-126 | the German and English extra-field lists report the same semantic keys in the same order |
| Catalog.LanguagesShareSemanticKeys | custom_components/idm_hpweb/idmHeatpumpWeb.py:21-190 | switching language never changes the keys sensor readings are reported under, the semantic keys of both tables, or the extra-field names, nor their order; the two identification markers differ |
| IdmProtocol.LoginCode | custom_components/idm_hpweb/idmHeatpumpWeb.py:237-264 | every failure status maps to a code other than "success" |
| IdmProtocol.ClassifyLogin | custom_components/idm_hpweb/idmHeatpumpWeb.py:248-260 | a 200 page is never "cannot connect"; it is "invalid pin" exactly when the authorization marker is found past index 0; a token exists exactly on success and is at most 119 characters long |
| IdmProtocol.LoginTokenShape | custom_components/idm_hpweb/idmHeatpumpWeb.py:253-259 | the token is the text right after the first `csrf_token="`; it holds no double quote and is followed by one |
| IdmProtocol.LoginUnknownWithoutToken | custom_components/idm_hpweb/idmHeatpumpWeb.py:250-258 | a page without the token marker, or without a closing quote within 120 characters, is "unknown" unless the PIN was refused |
| IdmProtocol.LoginTokenRoundTrip | custom_components/idm_hpweb/idmHeatpumpWeb.py:250-260 | a page carrying a quote-free token of at most 119 characters after its first marker logs in with exactly that token |
| IdmProtocol.LoginStoresPageToken | custom_components/idm_hpweb/idmHeatpumpWeb.py:250-260 | after logging in on such a page, the client's stored token is exactly the page's token, whatever it held before |
| IdmProtocol.LoginOf | custom_components/idm_hpweb/idmHeatpumpWeb.py:240-264 | transport failures and every status other than 200 give "cannot connect" with no token; a 200 response is classified by its page text alone |
| IdmProtocol.AfterLogin | custom_components/idm_hpweb/idmHeatpumpWeb.py:259 | the stored token is replaced only by a successful login, and then by exactly the token that login read from the page (at most 119 characters); otherwise it is kept |
| IdmProtocol.SelectLanguage | custom_components/idm_hpweb/idmHeatpumpWeb.py:292-305 | the current language is kept when its marker is present; otherwise the language flips, and the position is -1 exactly when the other marker is absent too; a found position is the marker's first occurrence |
| IdmProtocol.ExtraStep | custom_components/idm_hpweb/idmHeatpumpWeb.py:313-333 | one extra field either changes nothing, or appends one pair under the field's name and strictly advances the position |
| IdmProtocol.ExtraStepHit | custom_components/idm_hpweb/idmHeatpumpWeb.py:316-326 | a field located in the read-ahead window appends its name with exactly the text between its delimiters, and the position moves past the ending |
| IdmProtocol.ExtraStepMiss | custom_components/idm_hpweb/idmHeatpumpWeb.py:316-333 | a field with a missing marker is skipped and the position stays |
| IdmProtocol.ScanExtras | custom_components/idm_hpweb/idmHeatpumpWeb.py:312-333 | the walk keeps earlier pairs, adds at most one pair per field, only under the list's semantic keys, and never moves the position back |
| IdmProtocol.ClassOf | custom_components/idm_hpweb/idmHeatpumpWeb.py:375-396 | the interpretation class of a semantic key, tested in the source's order |
| IdmProtocol.InvertedClassIsSubstringTest | custom_components/idm_hpweb/idmHeatpumpWeb.py:396 | a key outside the first two classes gets the inverted interpretation exactly when it is a substring of "ew_evu_lock_contact" |
| IdmProtocol.Reinterpret | custom_components/idm_hpweb/idmHeatpumpWeb.py:375-400 | values other than "1"/"0" and plain keys are unchanged; on/off keys map 1/0 to on/off, alarm keys to OK/Problem!, the EVU lock contact, and every other key the substring test puts in its class, to off/on |
| IdmProtocol.StripHash | custom_components/idm_hpweb/idmHeatpumpWeb.py:363-366 | the search id is the prefix of the field id before its first `#` (the whole id when there is none) and holds no `#` |
| IdmProtocol.ResyncPos | custom_components/idm_hpweb/idmHeatpumpWeb.py:348-360 | only the service-section entry moves the position; in service mode it goes to 50 characters before the first occurrence of the id at or after the position, or stays when the id does not occur; outside service mode, when the walk goes on, the new position is the first photovoltaic marker at or after the old one |
| IdmProtocol.SensorExtract | custom_components/idm_hpweb/idmHeatpumpWeb.py:362-371 | a sensor extraction never moves the position back |
| IdmProtocol.SensorExtractHit | custom_components/idm_hpweb/idmHeatpumpWeb.py:362-371 | a sensor whose marker and two cell boundaries are located yields exactly the cell text, and the position moves past the second boundary |
| IdmProtocol.SensorExtractMiss | custom_components/idm_hpweb/idmHeatpumpWeb.py:362-371 | a sensor whose marker or either cell boundary is missing from the read-ahead block leaves the position where it was |
| IdmProtocol.ServiceModeNameIsPlain | custom_components/idm_hpweb/idmHeatpumpWeb.py:396-404 | the service-mode key falls through the three digital classes, so the service-mode test is reached for it |
| IdmProtocol.SensorStep | custom_components/idm_hpweb/idmHeatpumpWeb.py:346-410 | the entry stops the walk exactly at the service section outside service mode with no photovoltaic section, and then changes nothing; otherwise it appends at most one pair, under the entry's result key, past the resynchronised position; service mode is never switched off, and is switched on exactly when the service-mode entry is found; when nothing is appended the walk stays at the resynchronised position (the hit and miss cases are `SensorStepHit` and `SensorStepMiss`) |
| IdmProtocol.SensorStepHit | custom_components/idm_hpweb/idmHeatpumpWeb.py:362-408 | a located sensor appends its result key with the reinterpreted cell text and moves past the cell |
| IdmProtocol.SensorStepMiss | custom_components/idm_hpweb/idmHeatpumpWeb.py:362-410 | a sensor whose marker, first cell boundary or second cell boundary is missing from the read-ahead block appends nothing, and the walk stays at the resynchronised position |
| IdmProtocol.SensorRowRoundTrip | custom_components/idm_hpweb/idmHeatpumpWeb.py:346-408 | a page holding a sensor row (the entry's search marker, text without a cell boundary, then the value between two cell boundaries), whose marker does not occur earlier from the resynchronised position and which ends within the read-ahead block, reports exactly the row's value, reinterpreted, under the entry's result key (the raw id for short ids, the semantic key for descriptions); the walk continues just past the value cell |
| IdmProtocol.SensorStepPosition | custom_components/idm_hpweb/idmHeatpumpWeb.py:348-360 | only the service-section entry in service mode can move the position backwards |
| IdmProtocol.ScanSensors | custom_components/idm_hpweb/idmHeatpumpWeb.py:342-411 | the walk keeps earlier pairs, adds at most one pair per entry, and never leaves service mode |
| IdmProtocol.ScanSensorsFrom | custom_components/idm_hpweb/idmHeatpumpWeb.py:346-411 | the walk from an entry is that entry's step followed by the walk from the next entry, unless the step ends the walk |
| IdmProtocol.ScanSensorsStopsAtServiceSection | custom_components/idm_hpweb/idmHeatpumpWeb.py:356-360 | an early stop happens only outside service mode and only when the table has a service-section entry |
| IdmProtocol.ParseBody | custom_components/idm_hpweb/idmHeatpumpWeb.py:312-411 | a settings page yields at most one pair per extra field and sensor entry |
| IdmProtocol.ParseSettings | custom_components/idm_hpweb/idmHeatpumpWeb.py:282-412 | a re-login is requested exactly when the CSRF-invalid marker is in the first 128 characters, and then nothing is reported and the language is kept; otherwise the language is the one the probe selects |
| IdmProtocol.CsrfInvalidOnlyAtStart | custom_components/idm_hpweb/idmHeatpumpWeb.py:284-290 | the CSRF-invalid test (which, by the page parse's contract, is exactly when a re-login is requested) fires exactly when the marker lies wholly within the first 128 characters |
| IdmProtocol.UnreadablePage | custom_components/idm_hpweb/idmHeatpumpWeb.py:292-310 | a page in neither language yields nothing and leaves the language switched |
| IdmProtocol.LanguageSettles | custom_components/idm_hpweb/idmHeatpumpWeb.py:292-305 | after a page that identifies one language, the parser is in that language and a second page of it does not switch again |
| IdmProtocol.ExtrasComeFirst | custom_components/idm_hpweb/idmHeatpumpWeb.py:312-344 | the extra-field pairs come first; without the inputs/outputs marker they are all that is reported |
| IdmProtocol.Fetch | custom_components/idm_hpweb/idmHeatpumpWeb.py:266-420 | a transport failure reports nothing and requests a re-login; a status other than 200 reports nothing; a re-login never comes with pairs or a language change |
| HeatpumpWeb.IdmResponseData.constructor | custom_components/idm_hpweb/idmHeatpumpWeb.py:197-198 | a new container is empty |
| HeatpumpWeb.IdmResponseData.AddResp | custom_components/idm_hpweb/idmHeatpumpWeb.py:200-207 | appends one pair at the end: afterwards the count (`lenResp`) is one more, the pair at index -1 (`getResp`) is the new pair, and every earlier index still holds its old pair |
| HeatpumpWeb.WalkExtras | custom_components/idm_hpweb/idmHeatpumpWeb.py:312-333 | the loop appends exactly the pairs of the extra-field walk, and returns that walk's final position |
| HeatpumpWeb.InterpretValue | custom_components/idm_hpweb/idmHeatpumpWeb.py:374-404 | the value chain produces the reinterpreted value; service mode is switched on only by a found service-mode entry |
| HeatpumpWeb.WalkSensors | custom_components/idm_hpweb/idmHeatpumpWeb.py:342-411 | the loop, including its early exit, appends exactly the pairs of the sensor walk started outside service mode |
| HeatpumpWeb.IdmHeatpumpWeb.constructor | custom_components/idm_hpweb/idmHeatpumpWeb.py:213-225 | a new client has no token and starts with the English catalog |
| HeatpumpWeb.IdmHeatpumpWeb.IdmLogin | custom_components/idm_hpweb/idmHeatpumpWeb.py:238-264 | the code returned is that of the login outcome, and the token changes only on success |
| HeatpumpWeb.IdmHeatpumpWeb.SelectCatalog | custom_components/idm_hpweb/idmHeatpumpWeb.py:292-305 | the language and position after the probe are those of the language selection |
| HeatpumpWeb.IdmHeatpumpWeb.ParsePage | custom_components/idm_hpweb/idmHeatpumpWeb.py:282-412 | a fresh container holding exactly the pairs of the page parse, and the language and re-login flag that parse gives |
| HeatpumpWeb.IdmHeatpumpWeb.GetDataUpdate | custom_components/idm_hpweb/idmHeatpumpWeb.py:266-420 | the reported pairs and language are those of the fetch; the token changes only through the re-login that a transport failure or invalid token triggers |
| ConfigFlow.LoginErrors | custom_components/idm_hpweb/config_flow.py:81-84 | a failed login puts its code on the form as a whole, and on the PIN field exactly when the PIN was refused; other errors are kept |
| ConfigFlow.UserStep | custom_components/idm_hpweb/config_flow.py:49-97 | an entry titled name + "WP" is created exactly when the fields are valid, the name is free and the login succeeds; an abort happens exactly when the fields are valid and the name is taken |
| ConfigFlow.StepUser | custom_components/idm_hpweb/config_flow.py:49-97 | the step as run, with a fresh client's login, has the user-step outcome |
| ConfigFlow.UserFieldErrorPriority | custom_components/idm_hpweb/config_flow.py:57-65 | the checks run in the order name space, cycle time, statistics divisor, and at most one field error is reported |
| ConfigFlow.UserLoginOnlyWhenFieldsValid | custom_components/idm_hpweb/config_flow.py:57-79 | a login outcome (entry or form error) appears exactly when every field check passed and the name is free |
| ConfigFlow.UserStatDivAccepted | custom_components/idm_hpweb/config_flow.py:64 | the statistics divisor is accepted exactly when it is 0 or at least 3; negative values are refused |
| ConfigFlow.UserLoginFailure | custom_components/idm_hpweb/config_flow.py:81-84 | a failed login reports its code on the form, and also on the PIN field exactly for an invalid PIN, and nothing else |
| ConfigFlow.ReconfigureStep | custom_components/idm_hpweb/config_flow.py:99-147 | a taken host aborts first; there is never a divisor error; the entry is updated exactly when the host is free, the cycle time is valid, the name is free and the login succeeds |
| ConfigFlow.StepReconfigure | custom_components/idm_hpweb/config_flow.py:99-147 | the step as run, with a fresh client's login, has the reconfigure-step outcome |
| ConfigFlow.ReconfigureSpaceDoesNotBlock | custom_components/idm_hpweb/config_flow.py:107-141 | a space in the name is recorded but does not stop the update; with a short cycle time both field errors are reported |
| ConfigFlow.ReconfigureIgnoresStatDiv | custom_components/idm_hpweb/config_flow.py:107-141 | the statistics divisor has no effect on whether the entry is updated |

## Left out

- HTTP is not modelled: sessions, the login post, the settings get, headers, URLs, and the
  PIN and timeout sent with them. Responses are inputs. The client keeps its `host`, `pin`
  and `timeout` fields, as the constructor and the configuration flow set them, but no
  modelled operation reads them: they only feed the requests.
- `time.sleep` back-offs, logging and the executor wrappers (`async_idm_async_login`,
  `async_idm_async_get_data`, `blocking_idm_login_function`,
  `blocking_idm_get_data_function`) are not modelled. This includes their catch-all
  handlers for unexpected exceptions: nothing in the modelled text logic raises.
- `sensor.py` and `__init__.py` are not part of this model.
- The configuration flow builds the client with five arguments, but its constructor takes
  four (`hass`, `host`, `pin`, `timeout`). The model assumes the construction succeeds and
  gives the client the entered host, PIN and timeout.
- The configured-entries registry behind `_async_abort_entries_match` is reduced to two
  booleans: "an entry with this display name exists" and "an entry with this host exists".
- The form schema (types and defaults) is not modelled. Inputs arrive as typed values.
- The cycle time is compared with a whole number of seconds instead of
  `timedelta.total_seconds()`. For integer inputs the two agree.
- HeatpumpWeb.IdmResponseData.GetResp requires an index in range. The source raises
  `IndexError` outside that range, and the model does not model that exception.
- The `hass` handle, the session object and the class-level `_response` default are not
  modelled. The instance field always shadows that default.
