/** What HomeKit can ask of the accessory (index.js:364-461): the getters,
    which report the last known state and flag it as unknown once it has
    not been refreshed for three poll intervals, and the two commands, which
    send one request and apply the setter only when the device accepted it. */
module Commands {
  import opened Wrappers
  import opened Json
  import opened Config
  import opened DoorStates
  import opened StateMachine
  import opened Response
  import opened OAuth
  import opened Request

  /** The inputs of request signing that come from outside the model: the
      HMAC function, the nonce and the clock in seconds. */
  datatype Signer = Signer(hmac: (Hash, string, string) -> string, nonce: string, timestamp: nat)

  function Build(s: Settings, verb: Option<HttpMethod>, path: string, g: Signer): Result<HttpRequest, RequestFault> {
    BuildRequest(s, verb, path, g.hmac, g.nonce, g.timestamp)
  }

  /* ------------------------------------------------------------ getters */

  /** The state has gone unreported for three poll intervals; the test is
      made whenever anything at all is polled, whichever axis that is. */
  predicate IsStale(s: Settings, setAt: int, now: int) {
    HasStates(s) && now - setAt >= s.pollMilliseconds * 3
  }

  /** What a getter hands to HomeKit: always the last known value, together
      with an error when that value is stale. */
  datatype Reading<T> = Reading(value: T, unknown: bool)

  /** `getDoorCurrentState`. */
  function GetDoorCurrent(s: Settings, d: DoorRecord, now: int): (r: Reading<DoorState>)
    ensures r.value == d.current
  {
    Reading(d.current, IsStale(s, d.currentSetAt, now))
  }

  /** `getDoorObstructionDetected`: judged by the current state's age. */
  function GetObstruction(s: Settings, d: DoorRecord, now: int): (r: Reading<bool>)
    ensures r.value == d.obstruction
    ensures r.unknown == GetDoorCurrent(s, d, now).unknown
  {
    Reading(d.obstruction, IsStale(s, d.currentSetAt, now))
  }

  /** `getDoorTargetState`: never reported as unknown. */
  function GetDoorTarget(d: DoorRecord): (r: Reading<DoorState>)
    ensures !r.unknown && r.value == d.target
  {
    Reading(d.target, false)
  }

  /** `getLightCurrentState`. */
  function GetLight(s: Settings, l: LightRecord, now: int): (r: Reading<bool>)
    ensures r.value == l.on
  {
    Reading(l.on, IsStale(s, l.setAt, now))
  }

  /** A state refreshed less than three (positive) poll intervals ago is
      reported without error, whatever the setter call was. */
  lemma FreshAfterReport(s: Settings, d: DoorRecord, l: LightRecord, x: DoorState, on: bool,
                         initial: bool, guard: bool, t: int, now: int)
    requires s.pollMilliseconds > 0 && t <= now < t + s.pollMilliseconds * 3
    ensures !GetDoorCurrent(s, SetDoorCurrent(d, x, initial, guard, t).door, now).unknown
    ensures !GetObstruction(s, SetDoorCurrent(d, x, initial, guard, t).door, now).unknown
    ensures !GetLight(s, SetLightCurrent(l, on, initial, t).light, now).unknown
  {
  }

  /** The error is raised exactly when something is polled and the value
      has gone three intervals without a report; an accessory that polls
      nothing never reports its state as unknown. */
  lemma UnknownExactlyWhenStale(s: Settings, d: DoorRecord, l: LightRecord, now: int)
    ensures GetDoorCurrent(s, d, now).unknown <==>
              (HasDoorState(s) || HasLightState(s)) && now - d.currentSetAt >= 3 * s.pollMilliseconds
    ensures GetLight(s, l, now).unknown <==>
              (HasDoorState(s) || HasLightState(s)) && now - l.setAt >= 3 * s.pollMilliseconds
    ensures !HasStates(s) ==> !GetDoorCurrent(s, d, now).unknown && !GetLight(s, l, now).unknown
  {
  }

  /** Because the test uses `_hasStates`, an open-loop door whose light is
      polled is reported unknown three intervals after its last movement,
      although nothing could ever refresh it. */
  lemma UnpolledDoorGoesUnknown(s: Settings, d: DoorRecord, now: int)
    requires !HasDoorState(s) && HasLightState(s)
    requires now >= d.currentSetAt + 3 * s.pollMilliseconds
    ensures GetDoorCurrent(s, d, now).unknown
  {
  }

  /** A negative poll interval passes validation (only zero is refused),
      and then every polled value is reported unknown from the moment it is
      set. */
  lemma NegativePollIsAlwaysUnknown(s: Settings, d: DoorRecord, l: LightRecord, x: DoorState, on: bool,
                                    initial: bool, t: int, now: int)
    requires s.pollMilliseconds < 0 && HasStates(s) && now >= t
    ensures GetDoorCurrent(s, SetDoorCurrent(d, x, initial, false, t).door, now).unknown
    ensures GetObstruction(s, SetDoorCurrent(d, x, initial, false, t).door, now).unknown
    ensures GetLight(s, SetLightCurrent(l, on, initial, t).light, now).unknown
  {
  }

  /* ----------------------------------------------------------- commands */

  /** How a command ended. `Fault` is an exception thrown while the request
      was being built, before it was sent; the HomeKit callback is then
      never called. */
  datatype CommandOutcome =
    | NothingToDo
    | Rejected(error: HttpError)
    | Done
    | Fault(fault: RequestFault)

  /** The outcome of `setDoorTargetState`: the request sent, the setter's
      step (the old record and no pushes when the setter did not run), and
      whether an open-loop timer was started that will later set the current
      state to the target. */
  datatype DoorCommandResult = DoorCommandResult(
    outcome: CommandOutcome,
    sent: Option<HttpRequest>,
    step: DoorStep,
    deferred: bool)

  /** The endpoint of a door command: OPEN uses the open endpoint, anything
      else the close endpoint. */
  function DoorEndpoint(s: Settings, newState: DoorState): Endpoint {
    if newState == Open then s.api.doorOpen else s.api.doorClose
  }

  /** What a command requires of the response: the success field, loosely
      equal to `true`. The content is read from `apiConfig`, where the
      constructor never puts it, so no content is ever required. */
  function CommandExpectation(successField: Option<string>): Expectation {
    Expectation(successField, true, None)
  }

  /** `setDoorTargetState(newState)`, with `o` what the HTTP client
      reports for the request it is given. */
  function DoorCommand(s: Settings, d: DoorRecord, newState: DoorState, g: Signer, o: HttpOutcome, now: int)
    : (r: DoorCommandResult)
    ensures r.outcome == NothingToDo <==> d.target == newState
    ensures r.sent.None? <==> r.outcome.NothingToDo? || r.outcome.Fault?
    ensures !r.outcome.Done? ==> r.step == DoorStep(d, [], 0) && !r.deferred
    ensures r.outcome.Done? ==>
              r.step == SetDoorTarget(d, newState, false, false, now) && r.deferred == !HasDoorState(s)
  {
    if d.target == newState then DoorCommandResult(NothingToDo, None, DoorStep(d, [], 0), false)
    else
      var e := DoorEndpoint(s, newState);
      match Build(s, Some(e.verb), e.url, g)
      case Failure(f) => DoorCommandResult(Fault(f), None, DoorStep(d, [], 0), false)
      case Success(req) =>
        match Classify(IsJsonApi(s), CommandExpectation(s.api.doorSuccessField), o)
        case Failure(err) => DoorCommandResult(Rejected(err), Some(req), DoorStep(d, [], 0), false)
        case Success(_) =>
          DoorCommandResult(Done, Some(req), SetDoorTarget(d, newState, false, false, now), !HasDoorState(s))
  }

  /** The request a door command sends goes to the endpoint of the
      requested state, under its configured method; without OAuth its URL
      is the endpoint's absolute URL. */
  lemma DoorCommandSendsEndpoint(s: Settings, d: DoorRecord, newState: DoorState, g: Signer, o: HttpOutcome, now: int)
    ensures var r := DoorCommand(s, d, newState, g, o, now);
            var e := DoorEndpoint(s, newState);
            r.sent.Some? ==>
              && r.sent.value.verb == MethodName(e.verb)
              && (s.oauth.None? ==> r.sent.value.url == BaseUrl(s, e.url))
  {
  }

  /** The open-loop timer: the current state is set to the target state as
      it is when the timer fires. */
  function RunDeferred(d: DoorRecord, now: int): (r: DoorStep)
    ensures r.door.current == d.target
    ensures d.target != Opening && d.target != Closing ==> r.door.target == d.target
  {
    SetDoorCurrent(d, d.target, false, false, now)
  }

  /** A door command is carried out exactly when the target changes, the
      request can be built, and the device's response meets the command's
      expectation: a 2xx status and, for a JSON API, a parseable body whose
      success field (when one is configured and the body is not `null`) is
      present and loosely `true`. */
  lemma DoorCommandDoneIff(s: Settings, d: DoorRecord, newState: DoorState, g: Signer, o: HttpOutcome, now: int)
    ensures var e := DoorEndpoint(s, newState);
            var f := s.api.doorSuccessField;
            DoorCommand(s, d, newState, g, o, now).outcome == Done <==>
              && d.target != newState
              && Build(s, Some(e.verb), e.url, g).Success?
              && Delivered(o)
              && (IsJsonApi(s) ==>
                    && o.parsed.Parsed?
                    && (HasJson(o) && f.Some? ==>
                          HasOwnProperty(o.parsed.value, f.value)
                          && LooselyTrue(Property(o.parsed.value, f.value))))
  {
    if Delivered(o) {
      AcceptedIffExpectationsHold(IsJsonApi(s), CommandExpectation(s.api.doorSuccessField), o);
    }
  }

  /** A command that was carried out is not repeated: asking again for the
      same target sends nothing and changes nothing. */
  lemma DoorCommandIsIdempotent(s: Settings, d: DoorRecord, newState: DoorState,
                                g1: Signer, o1: HttpOutcome, t1: int, g2: Signer, o2: HttpOutcome, t2: int)
    requires DoorCommand(s, d, newState, g1, o1, t1).outcome == Done
    ensures var d1 := DoorCommand(s, d, newState, g1, o1, t1).step.door;
            var again := DoorCommand(s, d1, newState, g2, o2, t2);
            again.outcome == NothingToDo && again.sent.None? && again.step.door == d1
  {
  }

  /** For an open-loop door, a successful OPEN (or CLOSE) command moves the
      door to OPENING (CLOSING) with the target set, and the timer that
      follows completes the movement: current and target agree and no
      obstruction is reported. */
  lemma OpenLoopCommandCompletes(s: Settings, d: DoorRecord, newState: DoorState,
                                 g: Signer, o: HttpOutcome, now: int, later: int)
    requires !HasDoorState(s) && ObstructionConsistent(d)
    requires newState == Open || newState == Closed
    requires DoorCommand(s, d, newState, g, o, now).outcome == Done
    ensures var r := DoorCommand(s, d, newState, g, o, now);
            && r.deferred
            && r.step.door.target == newState
            && r.step.door.current == (if newState == Open then Opening else Closing)
            && var fin := RunDeferred(r.step.door, later).door;
               fin.current == newState && fin.target == newState && !fin.obstruction
  {
    var r := DoorCommand(s, d, newState, g, o, now);
    assert d.target != newState && r.deferred;
    assert r.step == SetDoorTarget(d, newState, false, false, now);
    OpenLoopCompletion(d, newState, now, later);
  }

  lemma OpenLoopCompletion(d: DoorRecord, newState: DoorState, now: int, later: int)
    requires ObstructionConsistent(d) && d.target != newState
    requires newState == Open || newState == Closed
    ensures var moving := SetDoorTarget(d, newState, false, false, now).door;
            && moving.target == newState
            && moving.current == (if newState == Open then Opening else Closing)
            && var fin := RunDeferred(moving, later).door;
               fin.current == newState && fin.target == newState && !fin.obstruction
  {
    TargetDrivesCurrent(d, newState, now);
    var moving := SetDoorTarget(d, newState, false, false, now).door;
    SettersKeepObstructionConsistent(moving, newState, false, false, later);
  }

  /** A door that reports its own state starts no timer: the current state
      then changes only when a poll reports it. */
  lemma ClosedLoopCommandStartsNoTimer(s: Settings, d: DoorRecord, newState: DoorState,
                                       g: Signer, o: HttpOutcome, now: int)
    requires HasDoorState(s)
    ensures !DoorCommand(s, d, newState, g, o, now).deferred
  {
  }

  /** For a "Generic" API the configured success content is never looked
      for: every 2xx response carries out the command, whatever its body. */
  lemma GenericContentIsNeverChecked(s: Settings, d: DoorRecord, newState: DoorState, g: Signer,
                                     status: int, body: string, parsed: JsonParse, now: int)
    requires s.api.apiType == GenericApi && s.oauth.None?
    requires d.target != newState && 200 <= status <= 299
    ensures DoorCommand(s, d, newState, g, HttpOutcome.Response(status, body, parsed), now).outcome == Done
  {
  }

  /** The outcome of `setLightCurrentState`. */
  datatype LightCommandResult = LightCommandResult(
    outcome: CommandOutcome,
    sent: Option<HttpRequest>,
    step: LightStep)

  /** The endpoint of a light command; for a profile without light
      endpoints it is missing, and so is its method. */
  function LightEndpoint(s: Settings, on: bool): Option<Endpoint> {
    if on then s.api.lightOn else s.api.lightOff
  }

  function LightVerb(s: Settings, on: bool): Option<HttpMethod> {
    match LightEndpoint(s, on)
    case Some(e) => Some(e.verb)
    case None => None
  }

  function LightPath(s: Settings, on: bool): string {
    match LightEndpoint(s, on)
    case Some(e) => e.url
    case None => ""
  }

  /** `setLightCurrentState(newState)`. The command compares with the
      current light state, since a light has no separate target. */
  function LightCommand(s: Settings, l: LightRecord, newState: bool, g: Signer, o: HttpOutcome, now: int)
    : (r: LightCommandResult)
    ensures r.outcome == NothingToDo <==> l.on == newState
    ensures r.sent.None? <==> r.outcome.NothingToDo? || r.outcome.Fault?
    ensures !r.outcome.Done? ==> r.step == LightStep(l, [])
    ensures r.outcome.Done? ==> r.step == SetLightCurrent(l, newState, false, now)
    ensures r.outcome.Fault? ==> r.outcome.fault == MethodUndefined ==> LightEndpoint(s, newState).None?
    ensures l.on != newState && LightEndpoint(s, newState).None? ==> r.outcome == Fault(MethodUndefined)
  {
    if l.on == newState then LightCommandResult(NothingToDo, None, LightStep(l, []))
    else
      match Build(s, LightVerb(s, newState), LightPath(s, newState), g)
      case Failure(f) => LightCommandResult(Fault(f), None, LightStep(l, []))
      case Success(req) =>
        match Classify(IsJsonApi(s), CommandExpectation(s.api.lightSuccessField), o)
        case Failure(err) => LightCommandResult(Rejected(err), Some(req), LightStep(l, []))
        case Success(_) => LightCommandResult(Done, Some(req), SetLightCurrent(l, newState, false, now))
  }

  /** A light command is carried out exactly when the state changes, the
      request can be built, and the response meets the expectation. */
  lemma LightCommandDoneIff(s: Settings, l: LightRecord, newState: bool, g: Signer, o: HttpOutcome, now: int)
    ensures var f := s.api.lightSuccessField;
            LightCommand(s, l, newState, g, o, now).outcome == Done <==>
              && l.on != newState
              && Build(s, LightVerb(s, newState), LightPath(s, newState), g).Success?
              && Delivered(o)
              && (IsJsonApi(s) ==>
                    && o.parsed.Parsed?
                    && (HasJson(o) && f.Some? ==>
                          HasOwnProperty(o.parsed.value, f.value)
                          && LooselyTrue(Property(o.parsed.value, f.value))))
  {
    if Delivered(o) {
      AcceptedIffExpectationsHold(IsJsonApi(s), CommandExpectation(s.api.lightSuccessField), o);
    }
  }

  /** After a carried-out light command the light shows the requested
      state, pushed once; asking again sends nothing. */
  lemma LightCommandIsIdempotent(s: Settings, l: LightRecord, newState: bool,
                                 g1: Signer, o1: HttpOutcome, t1: int, g2: Signer, o2: HttpOutcome, t2: int)
    requires LightCommand(s, l, newState, g1, o1, t1).outcome == Done
    ensures var r := LightCommand(s, l, newState, g1, o1, t1);
            && r.step.light.on == newState && r.step.pushed == [LightPushed(newState)]
            && LightCommand(s, r.step.light, newState, g2, o2, t2).outcome == NothingToDo
  {
  }

  /** The commands keep the obstruction flag in step with the door. */
  lemma CommandsKeepObstructionConsistent(s: Settings, d: DoorRecord, newState: DoorState,
                                          g: Signer, o: HttpOutcome, now: int, later: int)
    requires ObstructionConsistent(d)
    ensures ObstructionConsistent(DoorCommand(s, d, newState, g, o, now).step.door)
    ensures ObstructionConsistent(RunDeferred(d, later).door)
  {
    SettersKeepObstructionConsistent(d, newState, false, false, now);
    SettersKeepObstructionConsistent(d, d.target, false, false, later);
  }
}
