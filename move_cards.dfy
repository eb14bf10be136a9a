/**
  The ambient shuffle: a directive on every card entity that cycles
  StartMove -> Moving -> EndMove -> Waiting -> StartMove, moving the card from where it stood
  to a randomly chosen slot. Time is the integer number of milliseconds since start-up.

  The pure part (`Directive`, `Step`, `Run` and the lemmas) is the specification; the class
  `MoveCardsWithDelay` and the method `MoveCardsWithDelaySystem` update components in place
  and are proved against it.
 */
module MoveCards {

  import opened Wrappers
  import opened Spatial

  datatype MoveState = StartMove | Moving | EndMove | Waiting

  /** The state that follows `s` in the cycle. */
  function NextState(s: MoveState): (r: MoveState)
    ensures r != s
  {
    match s
    case StartMove => Moving
    case Moving => EndMove
    case EndMove => Waiting
    case Waiting => StartMove
  }

  /** Spin frequencies per axis (signed 8-bit in the program); never changed after creation. */
  datatype RotationFreqs = RotationFreqs(x: int, y: int, z: int)

  /** The value of a directive component. */
  datatype Directive = Directive(
    target: Option<Entity>,
    startPosition: Vec2,
    state: MoveState,
    timeAtStartOfMove: nat,
    timeBeforeNextMove: nat,
    timeToFinishMove: nat,
    rotationFreqs: RotationFreqs)

  /** A slot entity and its translation (slots never move). */
  datatype Slot = Slot(entity: Entity, translation: Vec3)

  /**
    The random draws one tick makes for one card: the uniformly chosen slot, the move duration
    (`2000..3000`) and the pause (`1000..2000`).
   */
  datatype Draws = Draws(slot: Entity, finishDelay: nat, nextDelay: nat)

  /** One tick of the clock with the draws made for the card in that tick. */
  datatype TickInput = TickInput(now: nat, draws: Draws)

  const MinMoveMillis: nat := 2000
  const MaxMoveMillis: nat := 3000
  const MinPauseMillis: nat := 1000
  const MaxPauseMillis: nat := 2000

  /** The first slot whose entity is `e` and its translation, as `find` on the slot list gives it. */
  function FindSlot(slots: seq<Slot>, e: Entity): (r: Option<Vec3>)
    ensures r.Some? <==> exists i :: 0 <= i < |slots| && slots[i].entity == e
    ensures r.Some? ==> exists i :: 0 <= i < |slots| && slots[i].entity == e && slots[i].translation == r.value &&
                                    forall j :: 0 <= j < i ==> slots[j].entity != e
  {
    if |slots| == 0 then None
    else if slots[0].entity == e then Some(slots[0].translation)
    else
      var r := FindSlot(slots[1..], e);
      assert forall i :: 1 <= i < |slots| ==> slots[i] == slots[1..][i - 1];
      if r.Some? then
        var k :| 0 <= k < |slots[1..]| && slots[1..][k].entity == e && slots[1..][k].translation == r.value &&
                 forall j :: 0 <= j < k ==> slots[1..][j].entity != e;
        assert slots[k + 1].entity == e && slots[k + 1].translation == r.value;
        r
      else
        r
  }

  /** The random draws lie in the ranges the program draws them from. */
  predicate DrawsInRange(draws: Draws, slots: seq<Slot>)
  {
    && FindSlot(slots, draws.slot).Some?
    && MinMoveMillis <= draws.finishDelay < MaxMoveMillis
    && MinPauseMillis <= draws.nextDelay < MaxPauseMillis
  }

  /**
    What a tick needs in order not to panic: a slot to choose from (the choice is made on every
    tick, whatever the state), and when Moving, a target present among the slots and a clock
    at or after the start of the move (unsigned subtraction). A move of zero length is excluded
    as well: it would divide by zero.
   */
  predicate TickPre(d: Directive, slots: seq<Slot>, now: nat)
  {
    && |slots| > 0
    && (d.state == Moving ==>
          && d.target.Some?
          && FindSlot(slots, d.target.value).Some?
          && d.timeAtStartOfMove <= now
          && d.timeAtStartOfMove < d.timeToFinishMove)
  }

  /** Fraction of the move done at `now`; not clamped, so it exceeds 1 after the deadline. */
  function Progress(d: Directive, now: nat): (p: real)
    requires d.timeAtStartOfMove <= now && d.timeAtStartOfMove < d.timeToFinishMove
    ensures p >= 0.0
  {
    (now - d.timeAtStartOfMove) as real / (d.timeToFinishMove - d.timeAtStartOfMove) as real
  }

  /** `start_new_move`: aim at slot `e`, schedule the move and the pause, remember where the card stands. */
  function AfterStartMove(d: Directive, position: Vec3, e: Option<Entity>, now: nat, nextDelay: nat, finishDelay: nat): (r: Directive)
    ensures r.state == Moving && r.target == e && r.rotationFreqs == d.rotationFreqs
    ensures r.timeAtStartOfMove == now && r.timeToFinishMove - r.timeAtStartOfMove == finishDelay
    ensures r.timeBeforeNextMove - r.timeAtStartOfMove == nextDelay
    ensures r.startPosition == Truncate(position)
  {
    d.(target := e,
       timeAtStartOfMove := now,
       timeBeforeNextMove := now + nextDelay,
       timeToFinishMove := now + finishDelay,
       startPosition := Truncate(position),
       state := Moving)
  }

  /**
    `moving_stuff`: place the card on the line from its start position to the target slot at
    the current progress, keeping its depth, and end the move once the deadline has come.
   */
  function AfterMoving(d: Directive, position: Vec3, slots: seq<Slot>, now: nat): (r: (Directive, Vec3))
    requires d.target.Some? && FindSlot(slots, d.target.value).Some?
    requires d.timeAtStartOfMove <= now && d.timeAtStartOfMove < d.timeToFinishMove
    ensures r.0 == d.(state := r.0.state)
    ensures r.0.state == EndMove || r.0.state == d.state
    ensures r.1.z == position.z
  {
    var slotPosition := FindSlot(slots, d.target.value).value;
    var location := Lerp(d.startPosition, Truncate(slotPosition), Progress(d, now));
    (if d.timeToFinishMove <= now then d.(state := EndMove) else d,
     Extend(location, position.z))
  }

  /** One tick of `move_cards_with_delay` for one card: its new directive and its new translation. */
  function Step(d: Directive, position: Vec3, slots: seq<Slot>, now: nat, draws: Draws): (r: (Directive, Vec3))
    requires TickPre(d, slots, now) && DrawsInRange(draws, slots)
    ensures r.0.state == d.state || r.0.state == NextState(d.state)
    ensures r.0.rotationFreqs == d.rotationFreqs
    ensures d.state != StartMove ==> r.0.target == d.target && r.0.startPosition == d.startPosition
    ensures r.1.z == position.z
    ensures d.state != Moving ==> r.1 == position
  {
    match d.state
    case StartMove =>
      (AfterStartMove(d, position, Some(draws.slot), now, draws.nextDelay, draws.finishDelay), position)
    case Moving =>
      AfterMoving(d, position, slots, now)
    case EndMove =>
      (d.(timeBeforeNextMove := now + draws.nextDelay, state := Waiting), position)
    case Waiting =>
      (if d.timeBeforeNextMove >= now then d.(state := StartMove) else d, position)
  }

  /**
    A run of ticks: `None` when some tick falls outside `TickPre` (a tick that would panic,
    a Moving tick with the clock before the start of the move, which wraps around in release
    builds, or a zero-length move, which divides by zero), otherwise the final
    directive and translation.
   */
  function Run(d: Directive, position: Vec3, slots: seq<Slot>, ticks: seq<TickInput>): Option<(Directive, Vec3)>
    requires forall k :: 0 <= k < |ticks| ==> DrawsInRange(ticks[k].draws, slots)
    decreases |ticks|
  {
    if |ticks| == 0 then Some((d, position))
    else if !TickPre(d, slots, ticks[0].now) then None
    else
      var next := Step(d, position, slots, ticks[0].now, ticks[0].draws);
      Run(next.0, next.1, slots, ticks[1..])
  }

  /** The clock never goes back. */
  predicate Monotone(ticks: seq<TickInput>)
  {
    forall i, j :: 0 <= i < j < |ticks| ==> ticks[i].now <= ticks[j].now
  }

  /** The spin frequencies `setup` draws: -1..=1 about x and y, 0 about z. */
  predicate FreqsInRange(f: RotationFreqs)
  {
    -1 <= f.x <= 1 && -1 <= f.y <= 1 && f.z == 0
  }

  /** The directive `setup` attaches to a card placed at `position`. */
  function InitialDirective(position: Vec3, freqs: RotationFreqs): (d: Directive)
  {
    Directive(None, Truncate(position), StartMove, 0, 0, 0, freqs)
  }

  /**
    The invariant every directive keeps: frequencies as drawn at set-up, and once a move has
    been started, a target among the slots and a move that lasts 2000 to 2999 ms.
   */
  predicate Valid(d: Directive, slots: seq<Slot>)
  {
    && FreqsInRange(d.rotationFreqs)
    && (d.state != StartMove ==>
          && d.target.Some?
          && FindSlot(slots, d.target.value).Some?
          && d.timeAtStartOfMove + MinMoveMillis <= d.timeToFinishMove < d.timeAtStartOfMove + MaxMoveMillis)
  }

  lemma InitialIsValid(position: Vec3, freqs: RotationFreqs, slots: seq<Slot>)
    requires FreqsInRange(freqs)
    ensures Valid(InitialDirective(position, freqs), slots)
    ensures InitialDirective(position, freqs).state == StartMove
    ensures InitialDirective(position, freqs).target == None
  {
  }

  /** A valid directive can be ticked at any time not before its move started, given a slot. */
  lemma ValidEnablesTick(d: Directive, slots: seq<Slot>, now: nat)
    requires Valid(d, slots) && |slots| > 0 && d.timeAtStartOfMove <= now
    ensures TickPre(d, slots, now)
    ensures d.state == Moving ==> d.timeToFinishMove - d.timeAtStartOfMove >= MinMoveMillis
  {
  }

  /** Every tick keeps the invariant, and leaves the start of the move no later than the clock. */
  lemma StepPreservesValid(d: Directive, position: Vec3, slots: seq<Slot>, now: nat, draws: Draws)
    requires Valid(d, slots) && TickPre(d, slots, now) && DrawsInRange(draws, slots)
    requires d.timeAtStartOfMove <= now
    ensures Valid(Step(d, position, slots, now, draws).0, slots)
    ensures Step(d, position, slots, now, draws).0.timeAtStartOfMove <= now
  {
  }

  /**
    StartMove: the target becomes the chosen slot, the move starts now and ends 2000 to 2999 ms
    later, the pause deadline is 1000 to 1999 ms from now, the start position is the card's
    current xy, and the state becomes Moving; the card does not move on this tick.
   */
  lemma StartMoveSchedulesMove(d: Directive, position: Vec3, slots: seq<Slot>, now: nat, draws: Draws)
    requires TickPre(d, slots, now) && DrawsInRange(draws, slots)
    requires d.state == StartMove
    ensures var (r, p) := Step(d, position, slots, now, draws);
      && r.target == Some(draws.slot) && FindSlot(slots, draws.slot).Some?
      && r.timeAtStartOfMove == now
      && now + MinMoveMillis <= r.timeToFinishMove < now + MaxMoveMillis
      && now + MinPauseMillis <= r.timeBeforeNextMove < now + MaxPauseMillis
      && r.startPosition == Truncate(position)
      && r.state == Moving
      && r.timeToFinishMove - r.timeAtStartOfMove >= MinMoveMillis
      && p == position
  {
  }

  /**
    Progress reaches 1 exactly at the deadline, and exceeds it afterwards: it is not clamped.
   */
  lemma ProgressAtDeadline(d: Directive, now: nat)
    requires d.timeAtStartOfMove <= now && d.timeAtStartOfMove < d.timeToFinishMove
    ensures Progress(d, now) >= 1.0 <==> d.timeToFinishMove <= now
    ensures Progress(d, now) == 1.0 <==> d.timeToFinishMove == now
    ensures Progress(d, now) > 1.0 <==> d.timeToFinishMove < now
  {
    var a := (now - d.timeAtStartOfMove) as real;
    var b := (d.timeToFinishMove - d.timeAtStartOfMove) as real;
    var p := Progress(d, now);
    assert b > 0.0 && p * b == a;
    if p >= 1.0 {
      assert p * b >= 1.0 * b;
    } else {
      assert p * b < 1.0 * b;
    }
  }

  /** Progress never decreases as the clock advances: the card only moves forward along its line. */
  lemma ProgressMonotone(d: Directive, now1: nat, now2: nat)
    requires d.timeAtStartOfMove <= now1 <= now2 && d.timeAtStartOfMove < d.timeToFinishMove
    ensures Progress(d, now1) <= Progress(d, now2)
  {
    var b := (d.timeToFinishMove - d.timeAtStartOfMove) as real;
    var p1, p2 := Progress(d, now1), Progress(d, now2);
    assert p1 * b == (now1 - d.timeAtStartOfMove) as real;
    assert p2 * b == (now2 - d.timeAtStartOfMove) as real;
    if p2 < p1 {
      assert (p1 - p2) * b > 0.0;
    }
  }

  /**
    Moving: the move ends exactly when the deadline has come (equivalently, when progress has
    reached 1), otherwise the state stays Moving; the depth of the card and every timestamp
    are kept, and the card's xy is the interpolation at the current progress.
   */
  lemma MovingEndsAtDeadline(d: Directive, position: Vec3, slots: seq<Slot>, now: nat, draws: Draws)
    requires TickPre(d, slots, now) && DrawsInRange(draws, slots)
    requires d.state == Moving
    ensures var (r, p) := Step(d, position, slots, now, draws);
      && (r.state == EndMove <==> d.timeToFinishMove <= now)
      && (r.state == EndMove <==> Progress(d, now) >= 1.0)
      && (r.state != EndMove ==> r.state == Moving)
      && r == d.(state := r.state)
      && p.z == position.z
      && Truncate(p) == Lerp(d.startPosition, Truncate(FindSlot(slots, d.target.value).value), Progress(d, now))
  {
    ProgressAtDeadline(d, now);
    var location := Lerp(d.startPosition, Truncate(FindSlot(slots, d.target.value).value), Progress(d, now));
    TruncateExtend(location, position.z);
  }

  /** A tick exactly at the deadline puts the card on its target slot's xy, at its own depth. */
  lemma ArrivesAtDeadline(d: Directive, position: Vec3, slots: seq<Slot>, draws: Draws)
    requires TickPre(d, slots, d.timeToFinishMove) && DrawsInRange(draws, slots)
    requires d.state == Moving
    ensures var (r, p) := Step(d, position, slots, d.timeToFinishMove, draws);
      && Truncate(p) == Truncate(FindSlot(slots, d.target.value).value)
      && p.z == position.z
      && r.state == EndMove
  {
    ProgressAtDeadline(d, d.timeToFinishMove);
    var slotXY := Truncate(FindSlot(slots, d.target.value).value);
    LerpEnds(d.startPosition, slotXY);
    TruncateExtend(slotXY, position.z);
  }

  /** EndMove: the pause deadline is 1000 to 1999 ms from now and the state becomes Waiting. */
  lemma EndMoveSchedulesPause(d: Directive, position: Vec3, slots: seq<Slot>, now: nat, draws: Draws)
    requires TickPre(d, slots, now) && DrawsInRange(draws, slots)
    requires d.state == EndMove
    ensures var (r, p) := Step(d, position, slots, now, draws);
      && now + MinPauseMillis <= r.timeBeforeNextMove < now + MaxPauseMillis
      && r.state == Waiting
      && r == d.(timeBeforeNextMove := r.timeBeforeNextMove, state := Waiting)
      && p == position
  {
  }

  /**
    Waiting: the directive restarts exactly when the pause deadline is at or after the clock
    (the program's test is `>=`), and otherwise nothing changes.
   */
  lemma WaitingRestartsBeforeDeadline(d: Directive, position: Vec3, slots: seq<Slot>, now: nat, draws: Draws)
    requires TickPre(d, slots, now) && DrawsInRange(draws, slots)
    requires d.state == Waiting
    ensures var (r, p) := Step(d, position, slots, now, draws);
      && (r.state == StartMove <==> d.timeBeforeNextMove >= now)
      && (r.state != StartMove ==> r == d)
      && r == d.(state := r.state)
      && p == position
  {
  }

  /**
    With a clock that does not go back, a tick earlier than 1000 ms after EndMove finds the
    pause deadline still ahead and restarts at once.
   */
  lemma QuickTickAfterEndMoveRestarts(d: Directive, position: Vec3, slots: seq<Slot>, now1: nat, now2: nat, draws1: Draws, draws2: Draws)
    requires TickPre(d, slots, now1) && DrawsInRange(draws1, slots) && DrawsInRange(draws2, slots)
    requires d.state == EndMove
    requires now1 <= now2 < now1 + MinPauseMillis
    ensures var (r1, p1) := Step(d, position, slots, now1, draws1);
      TickPre(r1, slots, now2) && Step(r1, p1, slots, now2, draws2).0.state == StartMove
  {
  }

  /** A tick 2000 ms or more after EndMove finds the pause deadline passed and keeps Waiting. */
  lemma LateTickAfterEndMoveStalls(d: Directive, position: Vec3, slots: seq<Slot>, now1: nat, now2: nat, draws1: Draws, draws2: Draws)
    requires TickPre(d, slots, now1) && DrawsInRange(draws1, slots) && DrawsInRange(draws2, slots)
    requires d.state == EndMove
    requires now1 + MaxPauseMillis <= now2
    ensures var (r1, p1) := Step(d, position, slots, now1, draws1);
      TickPre(r1, slots, now2) && Step(r1, p1, slots, now2, draws2) == (r1, p1) && r1.state == Waiting
  {
  }

  /**
    Once the clock has passed the pause deadline of a Waiting directive, no later tick changes
    it: the card stays Waiting, where it is, forever.
   */
  lemma {:induction false} WaitingPastDeadlineStaysForever(d: Directive, position: Vec3, slots: seq<Slot>, ticks: seq<TickInput>)
    requires forall k :: 0 <= k < |ticks| ==> DrawsInRange(ticks[k].draws, slots)
    requires d.state == Waiting
    requires Monotone(ticks)
    requires |ticks| > 0 ==> d.timeBeforeNextMove < ticks[0].now
    ensures Run(d, position, slots, ticks) == Some((d, position))
    decreases |ticks|
  {
    if |ticks| > 0 {
      assert FindSlot(slots, ticks[0].draws.slot).Some?;
      assert TickPre(d, slots, ticks[0].now);
      assert Step(d, position, slots, ticks[0].now, ticks[0].draws) == (d, position);
      var rest := ticks[1..];
      assert forall i, j :: 0 <= i < j < |rest| ==> rest[i].now <= rest[j].now by {
        forall i, j | 0 <= i < j < |rest| ensures rest[i].now <= rest[j].now {
          assert rest[i] == ticks[i + 1] && rest[j] == ticks[j + 1];
        }
      }
      assert |rest| > 0 ==> rest[0] == ticks[1] && ticks[0].now <= ticks[1].now;
      WaitingPastDeadlineStaysForever(d, position, slots, rest);
    }
  }

  /**
    From a valid directive, ticks on a clock that does not go back (and not before the move
    in progress began) never panic, and the directive stays valid.
   */
  lemma {:induction false} ValidRunNeverPanics(d: Directive, position: Vec3, slots: seq<Slot>, ticks: seq<TickInput>)
    requires forall k :: 0 <= k < |ticks| ==> DrawsInRange(ticks[k].draws, slots)
    requires Valid(d, slots)
    requires Monotone(ticks)
    requires |ticks| > 0 ==> d.timeAtStartOfMove <= ticks[0].now
    ensures Run(d, position, slots, ticks).Some?
    ensures Valid(Run(d, position, slots, ticks).value.0, slots)
    decreases |ticks|
  {
    if |ticks| > 0 {
      assert FindSlot(slots, ticks[0].draws.slot).Some?;
      ValidEnablesTick(d, slots, ticks[0].now);
      StepPreservesValid(d, position, slots, ticks[0].now, ticks[0].draws);
      var next := Step(d, position, slots, ticks[0].now, ticks[0].draws);
      var rest := ticks[1..];
      assert forall i, j :: 0 <= i < j < |rest| ==> rest[i].now <= rest[j].now by {
        forall i, j | 0 <= i < j < |rest| ensures rest[i].now <= rest[j].now {
          assert rest[i] == ticks[i + 1] && rest[j] == ticks[j + 1];
        }
      }
      assert |rest| > 0 ==> rest[0] == ticks[1] && ticks[0].now <= ticks[1].now;
      ValidRunNeverPanics(next.0, next.1, slots, rest);
    }
  }

  /**
    A directive component, updated in place by the system each tick. The fields are those of
    the program's component; `state` is its `moving` field.
   */
  class MoveCardsWithDelay {
    var target: Option<Entity>
    var startPosition: Vec2
    var state: MoveState
    var timeAtStartOfMove: nat
    var timeBeforeNextMove: nat
    var timeToFinishMove: nat
    var rotationFreqs: RotationFreqs

    /** The component's current value. */
    function Value(): Directive
      reads this
    {
      Directive(target, startPosition, state, timeAtStartOfMove, timeBeforeNextMove, timeToFinishMove, rotationFreqs)
    }

    /** The directive `setup` attaches to a card placed at `position`. */
    constructor (position: Vec3, freqs: RotationFreqs)
      ensures Value() == InitialDirective(position, freqs)
    {
      target := None;
      startPosition := Truncate(position);
      state := StartMove;
      timeAtStartOfMove := 0;
      timeBeforeNextMove := 0;
      timeToFinishMove := 0;
      rotationFreqs := freqs;
    }

    /** `start_new_move`. */
    method StartNewMove(tx: Transform, e: Option<Entity>, t: nat, nextDelay: nat, finishDelay: nat)
      modifies this
      ensures Value() == AfterStartMove(old(Value()), tx.translation, e, t, nextDelay, finishDelay)
    {
      target := e;
      timeAtStartOfMove := t;
      timeBeforeNextMove := t + nextDelay;
      timeToFinishMove := t + finishDelay;
      startPosition := Truncate(tx.translation);
      state := Moving;
    }

    /** `moving_stuff`: moves the card's transform and ends the move at its deadline. */
    method MoveTowardsTarget(tx: Transform, slots: seq<Slot>, t: nat)
      requires target.Some? && FindSlot(slots, target.value).Some?
      requires timeAtStartOfMove <= t && timeAtStartOfMove < timeToFinishMove
      modifies this, tx
      ensures (Value(), tx.translation) == AfterMoving(old(Value()), old(tx.translation), slots, t)
    {
      var slotPosition := FindSlot(slots, target.value).value;
      var percentOfMoveDone := Progress(Value(), t);
      var location := Lerp(startPosition, Truncate(slotPosition), percentOfMoveDone);
      tx.translation := Extend(location, tx.translation.z);
      if timeToFinishMove <= t {
        state := EndMove;
      }
    }

    /** One iteration of the system's loop: the tick for this card, with the draws made for it. */
    method Tick(tx: Transform, slots: seq<Slot>, now: nat, draws: Draws)
      requires TickPre(Value(), slots, now) && DrawsInRange(draws, slots)
      modifies this, tx
      ensures (Value(), tx.translation) == Step(old(Value()), old(tx.translation), slots, now, draws)
    {
      var randomSlot := Some(draws.slot);
      match state
      case StartMove =>
        StartNewMove(tx, randomSlot, now, draws.nextDelay, draws.finishDelay);
      case Moving =>
        MoveTowardsTarget(tx, slots, now);
      case EndMove =>
        timeBeforeNextMove := now + draws.nextDelay;
        state := Waiting;
      case Waiting =>
        if timeBeforeNextMove >= now {
          state := StartMove;
        }
    }
  }

  /**
    `move_cards_with_delay`: one tick over every card that carries a directive, card k with
    transform `transforms[k]`, directive `movers[k]` and draws `draws[k]`.
   */
  method MoveCardsWithDelaySystem(transforms: seq<Transform>, movers: seq<MoveCardsWithDelay>, slots: seq<Slot>, now: nat, draws: seq<Draws>)
    requires |transforms| == |movers| == |draws|
    requires forall i, j :: 0 <= i < j < |movers| ==> movers[i] != movers[j] && transforms[i] != transforms[j]
    requires forall k :: 0 <= k < |movers| ==> TickPre(movers[k].Value(), slots, now) && DrawsInRange(draws[k], slots)
    modifies set k | 0 <= k < |movers| :: movers[k]
    modifies set k | 0 <= k < |transforms| :: transforms[k]
    ensures forall k :: 0 <= k < |movers| ==>
              (movers[k].Value(), transforms[k].translation) ==
              Step(old(movers[k].Value()), old(transforms[k].translation), slots, now, draws[k])
  {
    for i := 0 to |movers|
      invariant forall k :: 0 <= k < i ==>
                  (movers[k].Value(), transforms[k].translation) ==
                  Step(old(movers[k].Value()), old(transforms[k].translation), slots, now, draws[k])
      invariant forall k :: i <= k < |movers| ==>
                  movers[k].Value() == old(movers[k].Value()) && transforms[k].translation == old(transforms[k].translation)
    {
      movers[i].Tick(transforms[i], slots, now, draws[i]);
    }
  }
}
