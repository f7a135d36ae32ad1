/** The status poll (`_checkStates`, `_determineDoorState` and
    `_determineLightState`, index.js:469-577) and the accessory's life from
    `initServices` (index.js:331-362) through any sequence of polls,
    commands and open-loop timers. One poll asks for the door state when a
    door-state URL is configured, then for the light state when a light is
    published and is not already answered by the door's response. */
module Poll {
  import opened Wrappers
  import opened Json
  import opened Config
  import opened DoorStates
  import opened StateMachine
  import opened Response
  import opened OAuth
  import opened Request
  import opened Commands

  /** The accessory's state. `light` is absent when no light is published;
      `_lightCurrentState` is then never initialised. */
  datatype Accessory = Accessory(door: DoorRecord, light: Option<LightRecord>)

  /** A light record exists exactly when a light service was published. */
  predicate Wellformed(s: Settings, a: Accessory) {
    a.light.Some? <==> HasLightService(s)
  }

  /** One exchange with the device: the signing inputs, what the HTTP client
      reported, and the clock reading when the callback ran. */
  datatype Exchange = Exchange(signer: Signer, outcome: HttpOutcome, at: int)

  /** An exception thrown during a poll that nothing catches: building the
      request threw, the JSON door field has no `toUpperCase`, or a dual
      response tried to push a light that was never published. */
  datatype PollFault =
    | RequestNotBuilt(fault: RequestFault)
    | DoorFieldNotText
    | NoLightService

  /** An error the poll logs before going on: the exchange failed, or the
      door answer is not a door state. */
  datatype PollError = ExchangeFailed(error: HttpError) | UnrecognizedDoorState

  datatype Determined<T> = Reported(value: T) | Failed(error: PollError) | Faulted(fault: PollFault)

  /** What a `_determine…` call produced, and the request it sent. */
  datatype Answer<T> = Answer(result: Determined<T>, sent: Option<HttpRequest>)

  /** The door state, and the light state when the same response carried
      it. */
  datatype DoorReport = DoorReport(door: DoorState, light: Option<bool>)

  /** A property key as JavaScript uses it: an undefined key is the string
      "undefined". */
  function Key(field: Option<string>): string {
    field.GetOr("undefined")
  }

  /** What `data` holds in the request callback: the parsed JSON value, or
      the body text that stands in for a `null` one, which is a string and
      so has indices and a `length` of its own. */
  function PayloadValue(p: Payload): (r: JValue)
    ensures p.TextData? ==> r == JStr(p.text)
    ensures p.JsonData? ==> r == p.json
  {
    match p
    case JsonData(v) => v
    case TextData(t) => JStr(t)
  }

  /** The light state a dual response carries: only when the state URLs
      coincide on a JSON API and the light field is an own property. */
  function DualLight(s: Settings, p: Payload): (r: Option<bool>)
    ensures r.Some? <==> HasDualState(s) && HasOwnProperty(PayloadValue(p), Key(s.api.lightStateField))
  {
    var k := Key(s.api.lightStateField);
    if HasDualState(s) && HasOwnProperty(PayloadValue(p), k) then Some(LooselyTrue(Property(PayloadValue(p), k)))
    else None
  }

  /** `_determineDoorState`. Without a door-state URL it answers the
      current state and sends nothing. Otherwise a JSON API decodes the
      state field without trimming, a text API decodes the upper-cased and
      trimmed body. */
  function DetermineDoor(s: Settings, d: DoorRecord, x: Exchange): (r: Answer<DoorReport>)
    ensures !HasDoorState(s) ==> r == Answer(Reported(DoorReport(d.current, None)), None)
    ensures r.result.Faulted? && r.result.fault.RequestNotBuilt? <==>
              HasDoorState(s) && Build(s, s.api.doorStateMethod, s.api.doorStateUrl.value, x.signer).Failure?
    ensures r.sent.Some? <==> HasDoorState(s) && !(r.result.Faulted? && r.result.fault.RequestNotBuilt?)
    ensures r.result.Faulted? && r.result.fault == DoorFieldNotText ==> IsJsonApi(s)
    ensures r.result.Reported? && r.result.value.light.Some? ==> HasDualState(s)
    ensures HasDoorState(s) && Build(s, s.api.doorStateMethod, s.api.doorStateUrl.value, x.signer).Success? ==>
              var c := Classify(IsJsonApi(s), Expectation(s.api.doorStateField, false, None), x.outcome);
              && (c.Failure? ==> r.result == Failed(ExchangeFailed(c.error)))
              && (c.Success? ==> r.result == DecodeDoorAnswer(s, c.value, x.outcome))
  {
    if !HasDoorState(s) then Answer(Reported(DoorReport(d.current, None)), None)
    else
      match Build(s, s.api.doorStateMethod, s.api.doorStateUrl.value, x.signer)
      case Failure(f) => Answer(Faulted(RequestNotBuilt(f)), None)
      case Success(req) =>
        match Classify(IsJsonApi(s), Expectation(s.api.doorStateField, false, None), x.outcome)
        case Failure(e) => Answer(Failed(ExchangeFailed(e)), Some(req))
        case Success(p) => Answer(DecodeDoorAnswer(s, p, x.outcome), Some(req))
  }

  /** The door answer a delivered response gives: on a JSON API the state
      field, decoded as it is, and the light field of a dual response; on
      a text API the state named by the body. */
  function DecodeDoorAnswer(s: Settings, p: Payload, o: HttpOutcome): (r: Determined<DoorReport>)
    ensures r.Faulted? ==> r.fault == DoorFieldNotText && IsJsonApi(s)
    ensures r.Reported? && r.value.light.Some? ==> HasDualState(s)
    ensures IsJsonApi(s) ==>
              var f := DecodeJsonDoor(Property(PayloadValue(p), Key(s.api.doorStateField)));
              && (r.Reported? <==> f.Decoded?)
              && (r.Faulted? <==> f.TypeErrorThrown?)
              && (r.Reported? ==> r.value == DoorReport(f.value, DualLight(s, p)))
    ensures !IsJsonApi(s) && o.Response? ==>
              && (r.Reported? <==> DecodeTextDoor(o.body).Decoded?)
              && (r.Reported? ==> r.value == DoorReport(DecodeTextDoor(o.body).value, None))
  {
    if IsJsonApi(s) then JsonDoorReport(s, p)
    else TextDoorReport(if o.Response? then o.body else "")
  }

  /** The JSON branch: the door field decoded without trimming, and the
      light field when the response answers for both. */
  function JsonDoorReport(s: Settings, p: Payload): (r: Determined<DoorReport>)
    ensures r.Faulted? ==> r.fault == DoorFieldNotText
    ensures r.Reported? && r.value.light.Some? ==> HasDualState(s)
    ensures var f := DecodeJsonDoor(Property(PayloadValue(p), Key(s.api.doorStateField)));
            && (r.Reported? <==> f.Decoded?)
            && (r.Faulted? <==> f.TypeErrorThrown?)
            && (r.Reported? ==> r.value == DoorReport(f.value, DualLight(s, p)))
  {
    match DecodeJsonDoor(Property(PayloadValue(p), Key(s.api.doorStateField)))
    case TypeErrorThrown => Faulted(DoorFieldNotText)
    case Unrecognized => Failed(UnrecognizedDoorState)
    case Decoded(state) => Reported(DoorReport(state, DualLight(s, p)))
  }

  /** The text branch: the upper-cased, trimmed body; it never carries a
      light state and never throws. */
  function TextDoorReport(body: string): (r: Determined<DoorReport>)
    ensures !r.Faulted?
    ensures r.Reported? <==> DecodeTextDoor(body).Decoded?
    ensures r.Reported? ==> r.value == DoorReport(DecodeTextDoor(body).value, None)
  {
    match DecodeTextDoor(body)
    case Decoded(state) => Reported(DoorReport(state, None))
    case _ => Failed(UnrecognizedDoorState)
  }

  /** `_determineLightState`. Without a light-state URL it answers the
      current light state and sends nothing. A delivered JSON response
      answers the loose truth of the light field; a delivered text
      response answers whether the body is a truthy word. */
  function DetermineLight(s: Settings, l: LightRecord, x: Exchange): (r: Answer<bool>)
    ensures !HasLightState(s) ==> r == Answer(Reported(l.on), None)
    ensures r.result.Faulted? <==>
              HasLightState(s) && Build(s, s.api.lightStateMethod, s.api.lightStateUrl.value, x.signer).Failure?
    ensures r.result.Faulted? ==> r.result.fault.RequestNotBuilt?
    ensures r.sent.Some? <==> HasLightState(s) && !r.result.Faulted?
    ensures HasLightState(s) && Build(s, s.api.lightStateMethod, s.api.lightStateUrl.value, x.signer).Success? ==>
              var c := Classify(IsJsonApi(s), Expectation(s.api.lightStateField, false, None), x.outcome);
              && (c.Failure? ==> r.result == Failed(ExchangeFailed(c.error)))
              && (c.Success? && IsJsonApi(s) ==>
                    r.result == Reported(LooselyTrue(Property(PayloadValue(c.value), Key(s.api.lightStateField)))))
              && (c.Success? && !IsJsonApi(s) ==> r.result == Reported(IsPaddedTruthyWord(x.outcome.body)))
  {
    if !HasLightState(s) then Answer(Reported(l.on), None)
    else
      match Build(s, s.api.lightStateMethod, s.api.lightStateUrl.value, x.signer)
      case Failure(f) => Answer(Faulted(RequestNotBuilt(f)), None)
      case Success(req) =>
        match Classify(IsJsonApi(s), Expectation(s.api.lightStateField, false, None), x.outcome)
        case Failure(e) => Answer(Failed(ExchangeFailed(e)), Some(req))
        case Success(p) =>
          TextLightOnExactly(x.outcome.body);
          var on := if IsJsonApi(s) then DecodeJsonLight(Property(PayloadValue(p), Key(s.api.lightStateField)))
                    else DecodeTextLight(x.outcome.body);
          Answer(Reported(on), Some(req))
  }

  /* ---------------------------------------------------------------- a tick */

  /** The outcome of one poll: the new state, the values pushed to HomeKit
      in order, the requests sent, and the exception that ended the poll,
      if any (it leaves the poll lock held, so it is the last poll). */
  datatype Tick = Tick(acc: Accessory, pushed: seq<Notification>, sent: seq<HttpRequest>, fault: Option<PollFault>)

  function SentOf(o: Option<HttpRequest>): (r: seq<HttpRequest>)
    ensures |r| == if o.Some? then 1 else 0
  {
    match o
    case Some(q) => [q]
    case None => []
  }

  /** The door half of `_checkStates`: on a report the door setter runs,
      then the light setter for a dual report; an error changes nothing. */
  function DoorPart(s: Settings, a: Accessory, initial: bool, x: Exchange): (r: Tick)
    requires Wellformed(s, a)
    ensures Wellformed(s, r.acc) && r.acc.light.Some? == a.light.Some? && |r.sent| <= 1
    ensures ObstructionConsistent(a.door) ==> ObstructionConsistent(r.acc.door)
    ensures !DetermineDoor(s, a.door, x).result.Reported? ==> r.acc == a && r.pushed == []
    ensures r.fault == Some(NoLightService) <==>
              DetermineDoor(s, a.door, x).result.Reported?
              && DetermineDoor(s, a.door, x).result.value.light.Some? && !HasLightService(s)
    ensures var ans := DetermineDoor(s, a.door, x).result;
            ans.Reported? ==>
              var st := SetDoorCurrent(a.door, ans.value.door, initial, false, x.at);
              && r.acc.door == st.door
              && st.pushed <= r.pushed
              && (ans.value.light.None? ==> r.acc.light == a.light && r.pushed == st.pushed && r.fault.None?)
              && (ans.value.light.Some? && a.light.Some? ==>
                    && r.acc.light == Some(SetLightCurrent(a.light.value, ans.value.light.value, initial, x.at).light)
                    && r.fault.None?)
  {
    var ans := DetermineDoor(s, a.door, x);
    var sent := SentOf(ans.sent);
    match ans.result
    case Failed(_) => Tick(a, [], sent, None)
    case Faulted(f) => Tick(a, [], sent, Some(f))
    case Reported(rep) =>
      var st := SetDoorCurrent(a.door, rep.door, initial, false, x.at);
      SettersKeepObstructionConsistentWhen(a.door, rep.door, initial, x.at);
      var a1 := a.(door := st.door);
      match rep.light
      case None => Tick(a1, st.pushed, sent, None)
      case Some(on) =>
        match a.light
        case None => Tick(a1, st.pushed, sent, Some(NoLightService))
        case Some(l) =>
          var lt := SetLightCurrent(l, on, initial, x.at);
          Tick(a1.(light := Some(lt.light)), st.pushed + lt.pushed, sent, None)
  }

  lemma SettersKeepObstructionConsistentWhen(d: DoorRecord, s: DoorState, initial: bool, now: int)
    ensures ObstructionConsistent(d) ==> ObstructionConsistent(SetDoorCurrent(d, s, initial, false, now).door)
  {
    if ObstructionConsistent(d) {
      SettersKeepObstructionConsistent(d, s, initial, false, now);
    }
  }

  /** The light half of `_checkStates`, run for a published light that the
      door's response does not answer. */
  function LightPart(s: Settings, a: Accessory, initial: bool, x: Exchange): (r: Tick)
    requires a.light.Some?
    ensures r.acc.door == a.door && r.acc.light.Some? && |r.sent| <= 1
    ensures !DetermineLight(s, a.light.value, x).result.Reported? ==> r.acc == a && r.pushed == []
    ensures DetermineLight(s, a.light.value, x).result.Reported? ==>
              r.acc.light.value == SetLightCurrent(a.light.value, DetermineLight(s, a.light.value, x).result.value,
                                                   initial, x.at).light
  {
    var l := a.light.value;
    var ans := DetermineLight(s, l, x);
    var sent := SentOf(ans.sent);
    match ans.result
    case Failed(_) => Tick(a, [], sent, None)
    case Faulted(f) => Tick(a, [], sent, Some(f))
    case Reported(on) =>
      var lt := SetLightCurrent(l, on, initial, x.at);
      Tick(a.(light := Some(lt.light)), lt.pushed, sent, None)
  }

  /** `_checkStates(initial)`: the door half when a door-state URL is
      configured, then the light half when a light is published and the
      door's response does not carry it. A fault ends the poll. */
  function CheckStates(s: Settings, a: Accessory, initial: bool, dx: Exchange, lx: Exchange): (r: Tick)
    requires Wellformed(s, a)
    ensures Wellformed(s, r.acc)
    ensures ObstructionConsistent(a.door) ==> ObstructionConsistent(r.acc.door)
    ensures |r.sent| <= 2
    ensures r.acc.door == if HasDoorState(s) then DoorPart(s, a, initial, dx).acc.door else a.door
    ensures HasDualState(s) || (HasDoorState(s) && DoorPart(s, a, initial, dx).fault.Some?) ==>
              r == DoorPart(s, a, initial, dx)
    ensures HasLightService(s) && !HasDualState(s) && (HasDoorState(s) ==> DoorPart(s, a, initial, dx).fault.None?) ==>
              var ans := DetermineLight(s, a.light.value, lx).result;
              && (ans.Reported? ==> r.acc.light == Some(SetLightCurrent(a.light.value, ans.value, initial, lx.at).light))
              && (!ans.Reported? ==> r.acc.light == a.light)
              && (r.fault.Some? <==> ans.Faulted?)
  {
    var t1 := if HasDoorState(s) then DoorPart(s, a, initial, dx) else Tick(a, [], [], None);
    if t1.fault.Some? || HasDualState(s) || !HasLightService(s) then t1
    else
      assert t1.acc.light == a.light;
      var t2 := LightPart(s, t1.acc, initial, lx);
      Tick(t2.acc, t1.pushed + t2.pushed, t1.sent + t2.sent, t2.fault)
  }

  /* ---------------------------------------------------------- properties */

  /** A poll whose exchanges all fail leaves the state as it was and
      pushes nothing. */
  lemma FailedPollChangesNothing(s: Settings, a: Accessory, initial: bool, dx: Exchange, lx: Exchange)
    requires Wellformed(s, a)
    requires HasDoorState(s) ==> DetermineDoor(s, a.door, dx).result.Failed?
    requires HasLightService(s) && !HasDualState(s) ==> DetermineLight(s, a.light.value, lx).result.Failed?
    ensures CheckStates(s, a, initial, dx, lx).acc == a
    ensures CheckStates(s, a, initial, dx, lx).pushed == []
  {
  }

  /** With a dual configuration one request answers for door and light:
      when the response carries both fields, the poll sends exactly that
      request, sets the door to the decoded state and the light to the
      loose truth of its field. */
  lemma DualPollUpdatesBoth(s: Settings, a: Accessory, initial: bool, dx: Exchange, lx: Exchange,
                            v: JValue, word: string, state: DoorState)
    requires Wellformed(s, a) && HasDualState(s) && HasLightService(s)
    requires Build(s, s.api.doorStateMethod, s.api.doorStateUrl.value, dx.signer).Success?
    requires Delivered(dx.outcome) && dx.outcome.parsed == Parsed(v) && v != JNull
    requires Property(v, Key(s.api.doorStateField)) == Some(JStr(word))
    requires DoorStateToState(word) == Some(state)
    requires HasOwnProperty(v, Key(s.api.lightStateField))
    ensures var r := CheckStates(s, a, initial, dx, lx);
            && r.fault.None? && |r.sent| == 1
            && r.acc.door.current == state
            && r.acc.light.Some? && r.acc.light.value.on == LooselyTrue(Property(v, Key(s.api.lightStateField)))
  {
    JsonDoorAnswer(s, a.door, dx, v);
    var on := LooselyTrue(Property(v, Key(s.api.lightStateField)));
    assert DecodeDoorAnswer(s, JsonData(v), dx.outcome) == Reported(DoorReport(state, Some(on)));
  }

  /** The vendor profile always polls door and light through one response.
      Without a published light, a response that carries the light field
      therefore makes the light setter push to a characteristic that does
      not exist, and the poll ends in a fault after the door is updated. */
  lemma VendorWithoutLightFaults(s: Settings, a: Accessory, initial: bool, dx: Exchange, lx: Exchange,
                                 v: JValue, word: string, state: DoorState)
    requires s.api == VendorApi && !HasLightService(s) && Wellformed(s, a)
    requires Build(s, s.api.doorStateMethod, s.api.doorStateUrl.value, dx.signer).Success?
    requires Delivered(dx.outcome) && dx.outcome.parsed == Parsed(v)
    requires Property(v, "door-state") == Some(JStr(word)) && DoorStateToState(word) == Some(state)
    requires HasOwnProperty(v, "light-state")
    ensures var r := CheckStates(s, a, initial, dx, lx);
            r.fault == Some(NoLightService) && r.acc.door.current == state && r.acc.light.None?
  {
    assert HasDualState(s) && v != JNull;
    JsonDoorAnswer(s, a.door, dx, v);
    var on := LooselyTrue(Property(v, "light-state"));
    assert DecodeDoorAnswer(s, JsonData(v), dx.outcome) == Reported(DoorReport(state, Some(on)));
  }

  /** A Generic (plain-text) poll with a door-state and a light-state URL
      whose two responses are delivered sends one request for each, sets
      the door to the state the door body names and the light to whether
      the light body is a truthy word. */
  lemma TextPollSetsDoorAndLight(s: Settings, a: Accessory, initial: bool, dx: Exchange, lx: Exchange,
                                 state: DoorState)
    requires Wellformed(s, a) && !IsJsonApi(s) && HasDoorState(s) && HasLightState(s) && HasLightService(s)
    requires Build(s, s.api.doorStateMethod, s.api.doorStateUrl.value, dx.signer).Success?
    requires Build(s, s.api.lightStateMethod, s.api.lightStateUrl.value, lx.signer).Success?
    requires Delivered(dx.outcome) && Delivered(lx.outcome)
    requires DecodeTextDoor(dx.outcome.body) == Decoded(state)
    ensures var r := CheckStates(s, a, initial, dx, lx);
            && r.fault.None? && |r.sent| == 2
            && r.acc.door == SetDoorCurrent(a.door, state, initial, false, dx.at).door
            && r.acc.light == Some(SetLightCurrent(a.light.value, IsPaddedTruthyWord(lx.outcome.body), initial, lx.at).light)
  {
    TextDoorAnswer(s, a.door, dx, state);
    TextLightAnswer(s, a.light.value, lx);
    var t1 := DoorPart(s, a, initial, dx);
    assert t1.fault.None? && t1.acc.light == a.light && |t1.sent| == 1;
    var t2 := LightPart(s, t1.acc, initial, lx);
    assert |t2.sent| == 1 && t2.fault.None?;
    assert CheckStates(s, a, initial, dx, lx) == Tick(t2.acc, t1.pushed + t2.pushed, t1.sent + t2.sent, None);
  }

  /** A JSON poll with separate door-state and light-state URLs whose two
      responses are delivered JSON values owning the fields sends one request
      for each, sets the door to the state the door field names and the
      light to the loose truth of the light field. */
  lemma JsonPollSetsDoorAndLight(s: Settings, a: Accessory, initial: bool, dx: Exchange, lx: Exchange,
                                 dv: JValue, lv: JValue, word: string, state: DoorState)
    requires Wellformed(s, a) && IsJsonApi(s) && HasDoorState(s) && HasLightState(s) && HasLightService(s)
    requires !HasDualState(s)
    requires Build(s, s.api.doorStateMethod, s.api.doorStateUrl.value, dx.signer).Success?
    requires Build(s, s.api.lightStateMethod, s.api.lightStateUrl.value, lx.signer).Success?
    requires Delivered(dx.outcome) && dx.outcome.parsed == Parsed(dv) && dv != JNull
    requires Delivered(lx.outcome) && lx.outcome.parsed == Parsed(lv) && lv != JNull
    requires Property(dv, Key(s.api.doorStateField)) == Some(JStr(word)) && DoorStateToState(word) == Some(state)
    requires HasOwnProperty(lv, Key(s.api.lightStateField))
    ensures var r := CheckStates(s, a, initial, dx, lx);
            && r.fault.None? && |r.sent| == 2
            && r.acc.door == SetDoorCurrent(a.door, state, initial, false, dx.at).door
            && r.acc.light == Some(SetLightCurrent(a.light.value, LooselyTrue(Property(lv, Key(s.api.lightStateField))),
                                                   initial, lx.at).light)
  {
    JsonDoorAnswer(s, a.door, dx, dv);
    JsonLightAnswer(s, a.light.value, lx, lv);
    var t1 := DoorPart(s, a, initial, dx);
    assert t1.fault.None? && t1.acc.light == a.light && |t1.sent| == 1;
    var t2 := LightPart(s, t1.acc, initial, lx);
    assert |t2.sent| == 1 && t2.fault.None?;
    assert CheckStates(s, a, initial, dx, lx) == Tick(t2.acc, t1.pushed + t2.pushed, t1.sent + t2.sent, None);
  }

  /** A delivered JSON value that owns the light field reaches the light
      decoder. */
  lemma JsonLightAnswer(s: Settings, l: LightRecord, x: Exchange, v: JValue)
    requires HasLightState(s) && IsJsonApi(s)
    requires Build(s, s.api.lightStateMethod, s.api.lightStateUrl.value, x.signer).Success?
    requires Delivered(x.outcome) && x.outcome.parsed == Parsed(v) && v != JNull
    requires HasOwnProperty(v, Key(s.api.lightStateField))
    ensures DetermineLight(s, l, x).result == Reported(LooselyTrue(Property(v, Key(s.api.lightStateField))))
    ensures DetermineLight(s, l, x).sent.Some?
  {
    assert Classify(true, Expectation(s.api.lightStateField, false, None), x.outcome) == Success(JsonData(v));
  }

  /** A delivered text response reaches the text decoder. */
  lemma TextDoorAnswer(s: Settings, d: DoorRecord, x: Exchange, state: DoorState)
    requires HasDoorState(s) && !IsJsonApi(s)
    requires Build(s, s.api.doorStateMethod, s.api.doorStateUrl.value, x.signer).Success?
    requires Delivered(x.outcome) && DecodeTextDoor(x.outcome.body) == Decoded(state)
    ensures DetermineDoor(s, d, x).result == Reported(DoorReport(state, None))
    ensures DetermineDoor(s, d, x).sent.Some?
  {
    assert Classify(false, Expectation(s.api.doorStateField, false, None), x.outcome).Success?;
  }

  lemma TextLightAnswer(s: Settings, l: LightRecord, x: Exchange)
    requires HasLightState(s) && !IsJsonApi(s)
    requires Build(s, s.api.lightStateMethod, s.api.lightStateUrl.value, x.signer).Success?
    requires Delivered(x.outcome)
    ensures DetermineLight(s, l, x).result == Reported(IsPaddedTruthyWord(x.outcome.body))
    ensures DetermineLight(s, l, x).sent.Some?
  {
    assert Classify(false, Expectation(s.api.lightStateField, false, None), x.outcome).Success?;
  }

  /** A JSON door field that is not a string is not decoded: the missing
      `toUpperCase` throws, and the poll ends with the state unchanged. */
  lemma NonTextDoorFieldFaults(s: Settings, a: Accessory, initial: bool, dx: Exchange, lx: Exchange, v: JValue)
    requires Wellformed(s, a) && HasDoorState(s) && IsJsonApi(s)
    requires Build(s, s.api.doorStateMethod, s.api.doorStateUrl.value, dx.signer).Success?
    requires Delivered(dx.outcome) && dx.outcome.parsed == Parsed(v) && v != JNull
    requires HasOwnProperty(v, Key(s.api.doorStateField))
    requires !Property(v, Key(s.api.doorStateField)).value.JStr?
    ensures var r := CheckStates(s, a, initial, dx, lx);
            r.fault == Some(DoorFieldNotText) && r.acc == a && r.pushed == []
  {
    JsonDoorAnswer(s, a.door, dx, v);
    assert DecodeDoorAnswer(s, JsonData(v), dx.outcome) == Faulted(DoorFieldNotText);
  }

  /** A delivered JSON value that owns the door field reaches the decoder. */
  lemma JsonDoorAnswer(s: Settings, d: DoorRecord, x: Exchange, v: JValue)
    requires HasDoorState(s) && IsJsonApi(s)
    requires Build(s, s.api.doorStateMethod, s.api.doorStateUrl.value, x.signer).Success?
    requires Delivered(x.outcome) && x.outcome.parsed == Parsed(v) && v != JNull
    requires HasOwnProperty(v, Key(s.api.doorStateField))
    ensures DetermineDoor(s, d, x).result == DecodeDoorAnswer(s, JsonData(v), x.outcome)
    ensures DetermineDoor(s, d, x).sent.Some?
  {
    var e := Expectation(s.api.doorStateField, false, None);
    assert Classify(true, e, x.outcome) == Success(JsonData(v));
  }

  /** A polled door without a light-state URL: once the door half has run
      without an exception, the light half still runs, and
      `_determineLightState` answers the current value, so the light setter
      only refreshes the light's timestamp. Nothing beyond the door's
      request is sent and nothing beyond the door's values is pushed. */
  lemma UnpolledLightIsRefreshed(s: Settings, a: Accessory, dx: Exchange, lx: Exchange)
    requires Wellformed(s, a) && HasDoorState(s) && !HasLightState(s) && HasLightService(s)
    requires !HasDualState(s)
    requires !DetermineDoor(s, a.door, dx).result.Faulted?
    ensures var t := DoorPart(s, a, false, dx);
            var r := CheckStates(s, a, false, dx, lx);
            && r.fault.None? && r.sent == t.sent && r.pushed == t.pushed
            && r.acc == t.acc.(light := Some(a.light.value.(setAt := lx.at)))
  {
    var t := DoorPart(s, a, false, dx);
    DoorPartKeepsLight(s, a, false, dx);
    UnpolledLightPart(s, t.acc, lx);
  }

  /** When the profile is not dual-state, a door half that does not throw
      leaves the light alone. */
  lemma DoorPartKeepsLight(s: Settings, a: Accessory, initial: bool, x: Exchange)
    requires Wellformed(s, a) && !HasDualState(s)
    requires !DetermineDoor(s, a.door, x).result.Faulted?
    ensures DoorPart(s, a, initial, x).fault.None? && DoorPart(s, a, initial, x).acc.light == a.light
  {
  }

  /** Without a light-state URL the light half answers the current value:
      it sends and pushes nothing and refreshes the timestamp. */
  lemma UnpolledLightPart(s: Settings, a: Accessory, x: Exchange)
    requires a.light.Some? && !HasLightState(s)
    ensures LightPart(s, a, false, x) == Tick(a.(light := Some(a.light.value.(setAt := x.at))), [], [], None)
  {
  }

  /* ------------------------------------------------ the accessory's life */

  /** `initServices`: the door starts CLOSED and CLOSED, a published light
      starts off, and both are pushed once. */
  function Initialize(s: Settings, now: int): (r: (Accessory, seq<Notification>))
    ensures Wellformed(s, r.0) && ObstructionConsistent(r.0.door)
    ensures r.0.door.current == Closed && r.0.door.target == Closed
    ensures HasLightService(s) ==> r.0.light == Some(LightRecord(false, now))
  {
    var d := InitialDoor(now);
    if HasLightService(s) then
      var l := InitialLight(now);
      (Accessory(d.door, Some(l.light)), d.pushed + l.pushed)
    else (Accessory(d.door, None), d.pushed)
  }

  /** Something that happens to a running accessory. A timer may fire at
      any moment, whether or not an open-loop command scheduled it, and a
      poll may come at any moment too: also after a fault has left the poll
      lock held, and also when nothing is polled, where `initServices`
      never starts polling. The runs below therefore include every run the
      plugin can make, and more. */
  datatype Event =
    | PollTick(initial: bool, door: Exchange, light: Exchange)
    | DoorTargetSet(state: DoorState, x: Exchange)
    | LightSet(on: bool, x: Exchange)
    | TimerFired(at: int)

  /** The state after one event. A light command exists only for a
      published light. */
  function Step(s: Settings, a: Accessory, e: Event): (r: Accessory)
    requires Wellformed(s, a)
    ensures Wellformed(s, r)
  {
    match e
    case PollTick(initial, dx, lx) => CheckStates(s, a, initial, dx, lx).acc
    case DoorTargetSet(state, x) =>
      a.(door := DoorCommand(s, a.door, state, x.signer, x.outcome, x.at).step.door)
    case LightSet(on, x) =>
      (match a.light
       case Some(l) => a.(light := Some(LightCommand(s, l, on, x.signer, x.outcome, x.at).step.light))
       case None => a)
    case TimerFired(at) => a.(door := RunDeferred(a.door, at).door)
  }

  function Run(s: Settings, a: Accessory, es: seq<Event>): (r: Accessory)
    requires Wellformed(s, a)
    ensures Wellformed(s, r)
    decreases |es|
  {
    if |es| == 0 then a else Run(s, Step(s, a, es[0]), es[1..])
  }

  lemma StepKeepsObstructionConsistent(s: Settings, a: Accessory, e: Event)
    requires Wellformed(s, a) && ObstructionConsistent(a.door)
    ensures ObstructionConsistent(Step(s, a, e).door)
  {
    match e
    case PollTick(initial, dx, lx) =>
    case DoorTargetSet(state, x) =>
      CommandsKeepObstructionConsistent(s, a.door, state, x.signer, x.outcome, x.at, x.at);
    case LightSet(on, x) =>
    case TimerFired(at) =>
      SettersKeepObstructionConsistent(a.door, a.door.target, false, false, at);
  }

  /** Whatever the device answers and whatever HomeKit asks, from the
      initial state on, obstruction is reported exactly when the door is
      stopped. */
  lemma {:induction false} ObstructionAlwaysConsistent(s: Settings, now: int, es: seq<Event>)
    ensures ObstructionConsistent(Run(s, Initialize(s, now).0, es).door)
  {
    RunKeepsObstructionConsistent(s, Initialize(s, now).0, es);
  }

  lemma {:induction false} RunKeepsObstructionConsistent(s: Settings, a: Accessory, es: seq<Event>)
    requires Wellformed(s, a) && ObstructionConsistent(a.door)
    ensures ObstructionConsistent(Run(s, a, es).door)
    decreases |es|
  {
    if |es| > 0 {
      StepKeepsObstructionConsistent(s, a, es[0]);
      RunKeepsObstructionConsistent(s, Step(s, a, es[0]), es[1..]);
    }
  }
}
