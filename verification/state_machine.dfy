/** The accessory's door and light state and its three setters
    (`_setDoorCurrentState`, `_setDoorTargetState`, `_setLightCurrentState`,
    index.js:579-638), as pure functions that return the new state together
    with the values pushed to HomeKit. The clock reading `Date.now()` is the
    parameter `now`. */
module StateMachine {
  import opened Wrappers
  import opened DoorStates

  /** `_doorCurrentState`, `_doorTargetState`, `_doorObstructionDetected`
      and the two `SetAt` timestamps. */
  datatype DoorRecord = DoorRecord(
    current: DoorState,
    target: DoorState,
    obstruction: bool,
    currentSetAt: int,
    targetSetAt: int)

  /** `_lightCurrentState` and `_lightCurrentStateSetAt`. */
  datatype LightRecord = LightRecord(on: bool, setAt: int)

  /** A `setValue` call on a HomeKit characteristic. */
  datatype Notification =
    | CurrentDoorPushed(door: DoorState)
    | TargetDoorPushed(door: DoorState)
    | ObstructionPushed(detected: bool)
    | LightPushed(on: bool)

  /** The outcome of a door setter: the new record, the values pushed in
      order, and how many setter invocations the call made in all. */
  datatype DoorStep = DoorStep(door: DoorRecord, pushed: seq<Notification>, frames: nat)

  datatype LightStep = LightStep(light: LightRecord, pushed: seq<Notification>)

  /** Obstruction is reported exactly when the door is stopped. */
  predicate ObstructionConsistent(d: DoorRecord) {
    d.obstruction == (d.current == Stopped)
  }

  /** The target a reported current state implies: a door that is open or
      opening is meant to be open, one that is closed or closing is meant to
      be closed, and a stopped door implies nothing. */
  function TargetImpliedBy(current: DoorState): Option<DoorState> {
    match current
    case Open => Some(Open)
    case Opening => Some(Open)
    case Closed => Some(Closed)
    case Closing => Some(Closed)
    case Stopped => None
  }

  /** The current state a new target implies: the door starts moving
      towards it. */
  function CurrentImpliedBy(target: DoorState): Option<DoorState> {
    match target
    case Open => Some(Opening)
    case Closed => Some(Closing)
    case _ => None
  }

  /** The setter's early return: same value and not the initial push. */
  predicate Unchanged<T(==)>(old_value: T, new_value: T, initial: bool) {
    old_value == new_value && !initial
  }

  /** `_setDoorCurrentState(s, initial, fromTarget)`. The timestamp is always
      refreshed; a change (or the initial push) stores and pushes the state
      and its obstruction flag and, unless the call came from the target
      setter, lets the target follow the implied value through one nested
      call of the target setter whose own inference is switched off. */
  function SetDoorCurrent(d: DoorRecord, s: DoorState, initial: bool, fromTarget: bool, now: int): (r: DoorStep)
    ensures r.door.current == s && r.door.currentSetAt == now
    ensures Unchanged(d.current, s, initial) ==>
              r.door == d.(currentSetAt := now) && r.pushed == [] && r.frames == 1
    ensures !Unchanged(d.current, s, initial) && (fromTarget || TargetImpliedBy(s).None?) ==>
              && r.door == d.(current := s, obstruction := s == Stopped, currentSetAt := now)
              && r.pushed == [CurrentDoorPushed(s), ObstructionPushed(s == Stopped)]
              && r.frames == 1
    ensures !Unchanged(d.current, s, initial) && !fromTarget && TargetImpliedBy(s).Some? ==>
              var t := TargetImpliedBy(s).value;
              && r.door == d.(current := s, obstruction := s == Stopped, currentSetAt := now,
                              target := t, targetSetAt := now)
              && r.pushed == [CurrentDoorPushed(s), ObstructionPushed(s == Stopped)]
                             + (if Unchanged(d.target, t, initial) then [] else [TargetDoorPushed(t)])
              && r.frames == 2
    decreases if fromTarget then 0 else 1
  {
    var d1 := d.(currentSetAt := now);
    if d1.current == s && !initial then
      DoorStep(d1, [], 1)
    else
      var d2 := d1.(current := s, obstruction := s == Stopped);
      var pushed := [CurrentDoorPushed(s), ObstructionPushed(s == Stopped)];
      if fromTarget then
        DoorStep(d2, pushed, 1)
      else if s == Open || s == Opening then
        var inner := SetDoorTarget(d2, Open, initial, true, now);
        DoorStep(inner.door, pushed + inner.pushed, 1 + inner.frames)
      else if s == Closed || s == Closing then
        var inner := SetDoorTarget(d2, Closed, initial, true, now);
        DoorStep(inner.door, pushed + inner.pushed, 1 + inner.frames)
      else
        DoorStep(d2, pushed, 1)
  }

  /** `_setDoorTargetState(s, initial, fromCurrent)`: the mirror image. A
      change stores and pushes the target and, unless the call came from the
      current-state setter, sets the current state to the implied movement
      through one nested call whose own inference is switched off. */
  function SetDoorTarget(d: DoorRecord, s: DoorState, initial: bool, fromCurrent: bool, now: int): (r: DoorStep)
    ensures r.door.target == s && r.door.targetSetAt == now
    ensures Unchanged(d.target, s, initial) ==>
              r.door == d.(targetSetAt := now) && r.pushed == [] && r.frames == 1
    ensures !Unchanged(d.target, s, initial) && (fromCurrent || CurrentImpliedBy(s).None?) ==>
              && r.door == d.(target := s, targetSetAt := now)
              && r.pushed == [TargetDoorPushed(s)]
              && r.frames == 1
    ensures !Unchanged(d.target, s, initial) && !fromCurrent && CurrentImpliedBy(s).Some? ==>
              var c := CurrentImpliedBy(s).value;
              && r.door == (if Unchanged(d.current, c, initial)
                            then d.(target := s, targetSetAt := now, currentSetAt := now)
                            else d.(target := s, targetSetAt := now, current := c,
                                    obstruction := false, currentSetAt := now))
              && r.pushed == [TargetDoorPushed(s)]
                             + (if Unchanged(d.current, c, initial) then []
                                else [CurrentDoorPushed(c), ObstructionPushed(false)])
              && r.frames == 2
    decreases if fromCurrent then 0 else 1
  {
    var d1 := d.(targetSetAt := now);
    if d1.target == s && !initial then
      DoorStep(d1, [], 1)
    else
      var d2 := d1.(target := s);
      var pushed := [TargetDoorPushed(s)];
      if fromCurrent then
        DoorStep(d2, pushed, 1)
      else if s == Open then
        var inner := SetDoorCurrent(d2, Opening, initial, true, now);
        DoorStep(inner.door, pushed + inner.pushed, 1 + inner.frames)
      else if s == Closed then
        var inner := SetDoorCurrent(d2, Closing, initial, true, now);
        DoorStep(inner.door, pushed + inner.pushed, 1 + inner.frames)
      else
        DoorStep(d2, pushed, 1)
  }

  /** `_setLightCurrentState(on, initial)`: the timestamp is always refreshed,
      and the value is pushed only when it changes or on the initial push. */
  function SetLightCurrent(l: LightRecord, on: bool, initial: bool, now: int): (r: LightStep)
    ensures r.light.on == on && r.light.setAt == now
    ensures |r.pushed| <= 1
    ensures r.pushed == [] <==> Unchanged(l.on, on, initial)
    ensures r.pushed != [] ==> r.pushed[0] == LightPushed(on)
  {
    var l1 := l.(setAt := now);
    if l1.on == on && !initial then LightStep(l1, [])
    else LightStep(l1.(on := on), [LightPushed(on)])
  }

  /* ----------------------------------------------------------- properties */

  /** Both door setters keep the obstruction flag in step with the current
      state. */
  lemma SettersKeepObstructionConsistent(d: DoorRecord, s: DoorState, initial: bool, guard: bool, now: int)
    requires ObstructionConsistent(d)
    ensures ObstructionConsistent(SetDoorCurrent(d, s, initial, guard, now).door)
    ensures ObstructionConsistent(SetDoorTarget(d, s, initial, guard, now).door)
  {
  }

  /** A reported current state drives the target: open or opening gives an
      open target, closed or closing a closed one, stopped leaves it alone;
      the nested target call never calls back into the current setter. */
  lemma CurrentStateDrivesTarget(d: DoorRecord, s: DoorState, now: int)
    requires d.current != s
    ensures var r := SetDoorCurrent(d, s, false, false, now);
            && (s == Open || s == Opening ==> r.door.target == Open)
            && (s == Closed || s == Closing ==> r.door.target == Closed)
            && (s == Stopped ==> r.door.target == d.target && r.door.targetSetAt == d.targetSetAt)
            && r.door.current == s
            && r.frames <= 2
  {
  }

  /** A requested target starts the door moving: OPEN gives OPENING and
      CLOSED gives CLOSING, with obstruction cleared. */
  lemma TargetDrivesCurrent(d: DoorRecord, s: DoorState, now: int)
    requires ObstructionConsistent(d)
    requires d.target != s && (s == Open || s == Closed)
    ensures var r := SetDoorTarget(d, s, false, false, now);
            && r.door.target == s
            && r.door.current == (if s == Open then Opening else Closing)
            && !r.door.obstruction
            && r.frames <= 2
  {
  }

  /** Repeating an observation changes nothing but the timestamp, and
      pushes nothing. */
  lemma SettersAreIdempotent(d: DoorRecord, l: LightRecord, s: DoorState, on: bool,
                             initial: bool, guard: bool, t1: int, t2: int)
    ensures var once := SetDoorCurrent(d, s, initial, guard, t1).door;
            var twice := SetDoorCurrent(once, s, false, guard, t2);
            twice.door == once.(currentSetAt := t2) && twice.pushed == []
    ensures var once := SetDoorTarget(d, s, initial, guard, t1).door;
            var twice := SetDoorTarget(once, s, false, guard, t2);
            twice.door == once.(targetSetAt := t2) && twice.pushed == []
    ensures var once := SetLightCurrent(l, on, initial, t1).light;
            var twice := SetLightCurrent(once, on, false, t2);
            twice.light == once.(setAt := t2) && twice.pushed == []
  {
  }

  /* ----------------------------------------------------- initial state */

  /** The door as `initServices` leaves it (index.js:344-346): CLOSED and
      CLOSED, pushed once with the initial flag so that current state,
      obstruction and target all reach HomeKit. */
  function InitialDoor(now: int): (r: DoorStep)
    ensures r.door == DoorRecord(Closed, Closed, false, now, now)
    ensures r.pushed == [CurrentDoorPushed(Closed), ObstructionPushed(false), TargetDoorPushed(Closed)]
    ensures ObstructionConsistent(r.door)
  {
    SetDoorCurrent(DoorRecord(Closed, Closed, false, now, now), Closed, true, false, now)
  }

  /** The light as `initServices` leaves it (index.js:355-356): off, pushed
      once. */
  function InitialLight(now: int): (r: LightStep)
    ensures r.light == LightRecord(false, now)
    ensures r.pushed == [LightPushed(false)]
  {
    SetLightCurrent(LightRecord(false, now), false, true, now)
  }

  /* ------------------------------------------------- sequences of calls */

  /** One external call of a door setter, with its clock reading. */
  datatype DoorCall =
    | CurrentReported(state: DoorState, initial: bool, at: int)
    | TargetRequested(state: DoorState, initial: bool, at: int)

  function ApplyDoorCall(d: DoorRecord, c: DoorCall): DoorRecord {
    match c
    case CurrentReported(s, i, t) => SetDoorCurrent(d, s, i, false, t).door
    case TargetRequested(s, i, t) => SetDoorTarget(d, s, i, false, t).door
  }

  function ApplyDoorCalls(d: DoorRecord, cs: seq<DoorCall>): DoorRecord
    decreases |cs|
  {
    if |cs| == 0 then d else ApplyDoorCalls(ApplyDoorCall(d, cs[0]), cs[1..])
  }

  /** Over any sequence of setter calls starting from the initial state,
      obstruction is reported exactly when the door is stopped. */
  lemma {:induction false} ObstructionInvariant(now: int, cs: seq<DoorCall>)
    ensures ObstructionConsistent(ApplyDoorCalls(InitialDoor(now).door, cs))
  {
    CallsKeepObstructionConsistent(InitialDoor(now).door, cs);
  }

  lemma {:induction false} CallsKeepObstructionConsistent(d: DoorRecord, cs: seq<DoorCall>)
    requires ObstructionConsistent(d)
    ensures ObstructionConsistent(ApplyDoorCalls(d, cs))
    decreases |cs|
  {
    if |cs| > 0 {
      match cs[0] {
        case CurrentReported(s, i, t) => SettersKeepObstructionConsistent(d, s, i, false, t);
        case TargetRequested(s, i, t) => SettersKeepObstructionConsistent(d, s, i, false, t);
      }
      CallsKeepObstructionConsistent(ApplyDoorCall(d, cs[0]), cs[1..]);
    }
  }
}
