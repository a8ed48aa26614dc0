/** The configuration flow of the heat-pump integration: the validation of the values
    a user enters when adding the device (the user step) or changing it later (the
    reconfigure step), the test login with the entered host and PIN, and the form,
    entry or abort that results. The configured-entries registry is reduced to two
    inputs: whether an entry with the entered display name, or with the entered host,
    already exists. */
module ConfigFlow {
  import opened Wrappers
  import opened TextSearch
  import opened IdmProtocol
  import opened HeatpumpWeb

  const DisplayNameKey := "display_name"
  const CycleTimeKey := "CYCLE_TIME"
  const StatDivKey := "STATISTICS_DIV"
  const PinKey := "pin"
  const BaseKey := "base"

  /** The smallest accepted cycle time between updates, in seconds. */
  const MinCycleTime: int := 2
  /** The abort reason of an entry-match abort. */
  const AlreadyConfigured := "already_configured"

  /** The values entered in the form. */
  datatype UserInput = UserInput(displayName: string, host: string, pin: string, timeout: int,
                                 cycleTime: int, statDiv: int)

  /** What a flow step hands back: the form again with its errors, a new entry, an
      update of the entry being reconfigured (which ends the flow), or an abort. */
  datatype FlowResult =
    | ShowForm(stepId: string, errors: map<string, string>)
    | CreateEntry(title: string, data: UserInput)
    | UpdateReloadAndAbort(data: UserInput)
    | Abort(reason: string)

  /** The errors a failed test login records: an invalid PIN is reported on the PIN
      field and on the form as a whole, every other failure on the form only. */
  function LoginErrors(errors: map<string, string>, code: string): (e: map<string, string>)
    requires code != "success"
    ensures BaseKey in e && e[BaseKey] == code
    ensures PinKey in e <==> PinKey in errors || code == "invalid_pin"
    ensures code == "invalid_pin" ==> e[PinKey] == code
    ensures forall k :: k in errors && k != BaseKey && k != PinKey ==> k in e && e[k] == errors[k]
    ensures forall k :: k in e ==> k in errors || k == BaseKey || k == PinKey
  {
    if code == "invalid_pin" then errors[PinKey := code][BaseKey := code] else errors[BaseKey := code]
  }

  // ---------------------------------------------------------------- user step

  /** The user step's field checks pass: no space in the display name, a cycle time of
      at least two seconds, and a statistics divisor that is zero or at least three. */
  predicate UserFieldsValid(u: UserInput)
  {
    ' ' !in u.displayName && u.cycleTime >= MinCycleTime && (u.statDiv == 0 || u.statDiv >= 3)
  }

  /** The user step, with the test login's result code as an input: the field checks
      run in a fixed order and stop at the first failure; only when all pass is the
      display name checked for uniqueness and the login tried. */
  function UserStep(input: Option<UserInput>, nameInUse: bool, code: string): (r: FlowResult)
    ensures input.None? ==> r == ShowForm("user", map[])
    ensures r.ShowForm? ==> r.stepId == "user"
    ensures r.CreateEntry? <==> input.Some? && UserFieldsValid(input.value) && !nameInUse && code == "success"
    ensures r.CreateEntry? ==> r.title == input.value.displayName + "WP" && r.data == input.value
    ensures r.Abort? <==> input.Some? && UserFieldsValid(input.value) && nameInUse
    ensures !r.UpdateReloadAndAbort?
  {
    match input
    case None => ShowForm("user", map[])
    case Some(u) =>
      if ' ' in u.displayName then ShowForm("user", map[DisplayNameKey := "display_name_no_spaces"])
      else if u.cycleTime < MinCycleTime then ShowForm("user", map[CycleTimeKey := "cycle_time_too_low"])
      else if u.statDiv < 3 && u.statDiv != 0 then ShowForm("user", map[StatDivKey := "stat_div_too_small"])
      else if nameInUse then Abort(AlreadyConfigured)
      else if code != "success" then ShowForm("user", LoginErrors(map[], code))
      else CreateEntry(u.displayName + "WP", u)
  }

  /** The user step as the flow runs it: the form's values are checked one after the
      other into an error map, and a fresh client is built for the test login, whose
      answer to the login post is `loginResp`. */
  method StepUser(userInput: Option<UserInput>, nameInUse: bool, loginResp: HttpResponse) returns (r: FlowResult)
    ensures r == UserStep(userInput, nameInUse, LoginCode(LoginOf(loginResp).status))
  {
    var errors: map<string, string> := map[];
    if userInput.Some? {
      var u := userInput.value;
      FindChar(u.displayName, ' ');
      if Find(u.displayName, " ", 0, |u.displayName|) != -1 {
        errors := errors[DisplayNameKey := "display_name_no_spaces"];
      } else if u.cycleTime < MinCycleTime {
        errors := errors[CycleTimeKey := "cycle_time_too_low"];
      } else if u.statDiv < 3 && u.statDiv != 0 {
        errors := errors[StatDivKey := "stat_div_too_small"];
      } else {
        if nameInUse {
          return Abort(AlreadyConfigured);
        }
        var idm := new IdmHeatpumpWeb(u.host, u.pin, u.timeout);
        var result := idm.IdmLogin(loginResp);
        if result != "success" {
          if result == "invalid_pin" {
            errors := errors[PinKey := result];
          }
          errors := errors[BaseKey := result];
        } else {
          var devUniqueId := u.displayName + "WP";
          return CreateEntry(devUniqueId, u);
        }
      }
    }
    return ShowForm("user", errors);
  }

  /** At most one field is reported per user-step attempt, and the checks have a fixed
      priority: a space in the display name hides a too-short cycle time, which hides a
      too-small statistics divisor. */
  lemma UserFieldErrorPriority(u: UserInput, nameInUse: bool, code: string)
    ensures var r := UserStep(Some(u), nameInUse, code);
            && (' ' in u.displayName ==> r == ShowForm("user", map[DisplayNameKey := "display_name_no_spaces"]))
            && (' ' !in u.displayName && u.cycleTime < MinCycleTime ==>
                  r == ShowForm("user", map[CycleTimeKey := "cycle_time_too_low"]))
            && (' ' !in u.displayName && u.cycleTime >= MinCycleTime && u.statDiv != 0 && u.statDiv < 3 ==>
                  r == ShowForm("user", map[StatDivKey := "stat_div_too_small"]))
            && (r.ShowForm? ==> |r.errors.Keys * {DisplayNameKey, CycleTimeKey, StatDivKey}| <= 1)
  {
    var r := UserStep(Some(u), nameInUse, code);
    var fields := {DisplayNameKey, CycleTimeKey, StatDivKey};
    if r.ShowForm? {
      if UserFieldsValid(u) {
        assert r.errors == LoginErrors(map[], code);
        assert r.errors.Keys * fields == {};
      } else if ' ' in u.displayName {
        assert r.errors.Keys * fields == {DisplayNameKey};
      } else if u.cycleTime < MinCycleTime {
        assert r.errors.Keys * fields == {CycleTimeKey};
      } else {
        assert r.errors.Keys * fields == {StatDivKey};
      }
    }
  }

  /** The test login is tried only when every field check passed: a login error on the
      form, or a new entry, implies valid fields, and valid fields with a free display
      name always lead to one of the two. */
  lemma UserLoginOnlyWhenFieldsValid(u: UserInput, nameInUse: bool, code: string)
    ensures var r := UserStep(Some(u), nameInUse, code);
            (r.CreateEntry? || (r.ShowForm? && BaseKey in r.errors)) <==> UserFieldsValid(u) && !nameInUse
  {
  }

  /** The statistics divisor is accepted exactly when it is zero or at least three;
      negative divisors are refused. */
  lemma UserStatDivAccepted(u: UserInput, nameInUse: bool, code: string)
    requires ' ' !in u.displayName && u.cycleTime >= MinCycleTime
    ensures var r := UserStep(Some(u), nameInUse, code);
            !(r.ShowForm? && StatDivKey in r.errors) <==> u.statDiv == 0 || u.statDiv >= 3
  {
    var r := UserStep(Some(u), nameInUse, code);
    if r.ShowForm? && (u.statDiv == 0 || u.statDiv >= 3) {
      assert r.errors == LoginErrors(map[], code);
    }
  }

  /** A failed login shows the form again with the result code on the form as a whole,
      and also on the PIN field exactly when the PIN was refused. */
  lemma UserLoginFailure(u: UserInput, code: string)
    requires UserFieldsValid(u) && code != "success"
    ensures var r := UserStep(Some(u), false, code);
            && r.ShowForm?
            && r.errors[BaseKey] == code
            && (PinKey in r.errors <==> code == "invalid_pin")
            && r.errors.Keys <= {BaseKey, PinKey}
  {
  }

  // ---------------------------------------------------------------- reconfigure step

  /** The reconfigure step, with the test login's result code as an input. The host is
      checked for uniqueness first; a space in the display name is recorded but does
      not stop the step; a too-short cycle time does; there is no divisor check. */
  function ReconfigureStep(input: Option<UserInput>, hostInUse: bool, nameInUse: bool, code: string): (r: FlowResult)
    ensures input.None? ==> r == ShowForm("reconfigure", map[])
    ensures r.ShowForm? ==> r.stepId == "reconfigure"
    ensures r.ShowForm? ==> StatDivKey !in r.errors
    ensures r.UpdateReloadAndAbort? <==>
              input.Some? && !hostInUse && input.value.cycleTime >= MinCycleTime && !nameInUse && code == "success"
    ensures r.UpdateReloadAndAbort? ==> r.data == input.value
    ensures r.Abort? <==> input.Some? && (hostInUse || (input.value.cycleTime >= MinCycleTime && nameInUse))
    ensures !r.CreateEntry?
  {
    match input
    case None => ShowForm("reconfigure", map[])
    case Some(u) =>
      if hostInUse then Abort(AlreadyConfigured)
      else
        var e0: map<string, string> :=
          if ' ' in u.displayName then map[DisplayNameKey := "display_name_no_spaces"] else map[];
        if u.cycleTime < MinCycleTime then ShowForm("reconfigure", e0[CycleTimeKey := "cycle_time_too_low"])
        else if nameInUse then Abort(AlreadyConfigured)
        else if code != "success" then ShowForm("reconfigure", LoginErrors(e0, code))
        else UpdateReloadAndAbort(u)
  }

  /** The reconfigure step as the flow runs it, with a fresh client for the test login
      whose answer to the login post is `loginResp`. */
  method StepReconfigure(userInput: Option<UserInput>, hostInUse: bool, nameInUse: bool, loginResp: HttpResponse)
    returns (r: FlowResult)
    ensures r == ReconfigureStep(userInput, hostInUse, nameInUse, LoginCode(LoginOf(loginResp).status))
  {
    var errors: map<string, string> := map[];
    if userInput.Some? {
      var u := userInput.value;
      if hostInUse {
        return Abort(AlreadyConfigured);
      }
      FindChar(u.displayName, ' ');
      if Find(u.displayName, " ", 0, |u.displayName|) != -1 {
        errors := errors[DisplayNameKey := "display_name_no_spaces"];
      }
      if u.cycleTime < MinCycleTime {
        errors := errors[CycleTimeKey := "cycle_time_too_low"];
      } else {
        if nameInUse {
          return Abort(AlreadyConfigured);
        }
        var idm := new IdmHeatpumpWeb(u.host, u.pin, u.timeout);
        var result := idm.IdmLogin(loginResp);
        if result != "success" {
          if result == "invalid_pin" {
            errors := errors[PinKey := result];
          }
          errors := errors[BaseKey := result];
        } else {
          return UpdateReloadAndAbort(u);
        }
      }
    }
    return ShowForm("reconfigure", errors);
  }

  /** Unlike the user step, a display name with a space does not stop the reconfigure
      step: with a valid cycle time, a free name and a successful login the entry is
      updated with the name as entered; and both field errors can be reported at once. */
  lemma ReconfigureSpaceDoesNotBlock(u: UserInput, code: string)
    requires ' ' in u.displayName
    ensures u.cycleTime >= MinCycleTime && code == "success" ==>
              ReconfigureStep(Some(u), false, false, code) == UpdateReloadAndAbort(u)
    ensures u.cycleTime < MinCycleTime ==>
              ReconfigureStep(Some(u), false, false, code).errors
              == map[DisplayNameKey := "display_name_no_spaces", CycleTimeKey := "cycle_time_too_low"]
    ensures u.cycleTime >= MinCycleTime && code != "success" ==>
              var e := ReconfigureStep(Some(u), false, false, code).errors;
              e[DisplayNameKey] == "display_name_no_spaces" && e[BaseKey] == code
  {
  }

  /** The reconfigure step accepts every statistics divisor, including those the user
      step refuses. */
  lemma ReconfigureIgnoresStatDiv(u: UserInput, d: int, hostInUse: bool, nameInUse: bool, code: string)
    ensures ReconfigureStep(Some(u), hostInUse, nameInUse, code).UpdateReloadAndAbort?
            == ReconfigureStep(Some(u.(statDiv := d)), hostInUse, nameInUse, code).UpdateReloadAndAbort?
  {
  }
}
