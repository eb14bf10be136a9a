# Solitaire card table: card movement, card identity and face visibility

A Dafny model of the card core of a Bevy-based solitaire prototype (`src/main.rs`,
`src/systems/cards.rs`, `src/components/cards.rs`):

- **Card identity** (`CardIdentity`): the `match i` of the deal loop in `setup`, which turns
  each deal index 0..51 into a `Card { index, number, suit, color }`, and what it does to the
  deck as a whole — including the Diamonds arm `26..=39`, which makes index 39 a second
  Diamonds ace and leaves Clubs with twelve cards and no ace.
- **Ambient shuffle** (`MoveCards`): the per-card directive `MoveCardsWtihDelay` (modelled as
  the class `MoveCardsWithDelay`) that cycles StartMove → Moving → EndMove → Waiting →
  StartMove, moving each card from where it stands to a randomly chosen slot. Time is the
  integer millisecond clock of the program, so every transition, timestamp and the "move done"
  test is stated exactly. The pure function `Step` specifies one tick for one card; the class
  methods `StartNewMove`, `MoveTowardsTarget` (the program's `moving_stuff`) and `Tick`, and
  the loop over all cards `MoveCardsWithDelaySystem`, update the components in place and are
  proved to do what `Step` says. `Run` chains ticks and returns `None` when a tick would
  panic or falls outside `TickPre` (a zero-length move, or a clock before the start of the
  move).
- **Face visibility** (`CardVisuals`, `Main`): each front face is shown exactly when the dot
  product of its world back axis with the z axis is positive, each back face exactly when it
  is negative. The plugin systems `card_visual_keep_face_up` / `card_visual_keep_back_up` and
  the application's own copies `card_face_up` / `card_back_up` are loops over a visibility
  array; all four are proved against the same two rule functions, so the two copies agree.
- **Components** (`CardComponents`): `CardSuit` (exactly one of four), `CardColor` (one of
  two), `Card` (a plain copyable value), the data-less markers `CardSlot`, `CardFront`,
  `CardBack`, the `Cards` resource and the `CurrentCard` cursor, as datatypes.
- `Main.Setup` places the ten slots and deals the 52 cards with their transforms and their
  initial directives (StartMove, every timestamp 0, no target, spin frequencies in
  {-1,0,1}×{-1,0,1}×{0}); `InitialIsValid` and `ValidRunNeverPanics` show that from there no
  tick on a clock that does not go back ever panics.

Random draws (`choose`, `gen_range`) are parameters constrained to the ranges they are drawn
from: a slot among the slots, a move of 2000..3000 ms, a pause of 1000..2000 ms, positions in
[-300, 300]. The slot is drawn on every tick for every card, whatever its state, so every tick
needs at least one slot.

The model follows the code, including behaviour a reader might not expect:
the directive never removes itself but cycles through Waiting; progress is not clamped
(a tick after the deadline places the card beyond its slot); a zero-length move is not guarded
(it cannot arise, see `ValidEnablesTick`); a target missing from the slots makes the code panic
(`unwrap`) rather than skip the card; and the Waiting test is `time_before_next_move >= now`,
so a card whose pause deadline has passed waits forever (`WaitingPastDeadlineStaysForever`)
while a card ticked within the pause restarts at once (`QuickTickAfterEndMoveRestarts`).

## Model

| member | source | states |
|---|---|---|
| `MoveCards.NextState` | src/main.rs:127-143 | the cycle StartMove → Moving → EndMove → Waiting → StartMove; no state is its own successor |
| `MoveCards.FindSlot` | src/main.rs:151-156 | the target's translation is found exactly when some slot has that entity, and it is the translation of the first such slot |
| `MoveCards.Progress` | src/main.rs:157-158 | the fraction of the move done is never negative (the clock is not before the start) |
| `MoveCards.Step` | src/main.rs:121-143 | one tick changes the state by at most one transition, never changes the spin frequencies, changes target and start position only in StartMove, keeps the card's depth, and moves the card only in Moving |
| `MoveCards.AfterStartMove` | src/main.rs:177-190 | `start_new_move`: the directive becomes Moving, aimed at the given slot, starting now, with the drawn move length and pause, the card's xy as start position and its spin frequencies kept |
| `MoveCards.AfterMoving` | src/main.rs:145-176 | `moving_stuff`: only the state may change, and only to EndMove; the card keeps its depth |
| `MoveCards.StartMoveSchedulesMove` | src/main.rs:177-190 | StartMove targets the chosen slot, starts the move now, ends it 2000..2999 ms later (so the progress divisor is at least 2000), sets the pause deadline 1000..1999 ms from now, records the card's xy as start position and becomes Moving |
| `MoveCards.ProgressAtDeadline` | src/main.rs:157-175 | progress is ≥ 1 exactly when the deadline has come, = 1 exactly at the deadline and > 1 after it (no clamping) |
| `MoveCards.ProgressMonotone` | src/main.rs:157-158 | on a clock that does not go back, progress never decreases, so the card only moves forward along its line during a move |
| `MoveCards.MovingEndsAtDeadline` | src/main.rs:145-176 | Moving becomes EndMove exactly when `time_to_finish_move <= now` (equivalently progress ≥ 1), else stays Moving; timestamps and target are kept; the card's xy is the interpolation from the start position to the target slot at the current progress and its z is kept |
| `MoveCards.ArrivesAtDeadline` | src/main.rs:157-163 | a tick exactly at the deadline puts the card on the target slot's xy at its own depth and ends the move |
| `MoveCards.EndMoveSchedulesPause` | src/main.rs:134-137 | EndMove sets the pause deadline 1000..1999 ms from now, becomes Waiting and changes nothing else |
| `MoveCards.WaitingRestartsBeforeDeadline` | src/main.rs:138-142 | Waiting becomes StartMove exactly when `time_before_next_move >= now`; otherwise nothing changes |
| `MoveCards.QuickTickAfterEndMoveRestarts` | src/main.rs:134-142 | a tick less than 1000 ms after EndMove restarts the cycle at once |
| `MoveCards.LateTickAfterEndMoveStalls` | src/main.rs:134-142 | a tick 2000 ms or more after EndMove leaves the card Waiting and unchanged |
| `MoveCards.WaitingPastDeadlineStaysForever` | src/main.rs:138-142 | once the clock has passed a Waiting card's pause deadline, every later run of ticks leaves the directive and the card unchanged |
| `MoveCards.InitialIsValid` | src/main.rs:385-397 | the directive attached at set-up starts in StartMove with no target and satisfies the invariant |
| `MoveCards.ValidEnablesTick` | src/main.rs:124-158 | a directive keeping the invariant can be ticked without panicking when a slot exists and the clock is not before its move began; in Moving the progress divisor is at least 2000 |
| `MoveCards.StepPreservesValid` | src/main.rs:121-190 | every tick keeps the invariant (spin frequencies in range; after the first StartMove a target among the slots and a move of 2000..2999 ms) and never sets the start of the move after the clock |
| `MoveCards.ValidRunNeverPanics` | src/main.rs:114-191 | any run of ticks on a clock that does not go back, from a directive keeping the invariant, never panics and ends in a directive keeping it |
| `MoveCards.MoveCardsWithDelay.constructor` | src/main.rs:385-397 | a new directive holds the initial value for the card's position and spin frequencies |
| `MoveCards.MoveCardsWithDelay.StartNewMove` | src/main.rs:177-190 | the component's new value is the StartMove update of its old value |
| `MoveCards.MoveCardsWithDelay.MoveTowardsTarget` | src/main.rs:145-176 | the component and the card's translation are updated as the Moving step says |
| `MoveCards.MoveCardsWithDelay.Tick` | src/main.rs:121-143 | the component and the card's translation after one iteration are `Step` of their old values |
| `MoveCards.MoveCardsWithDelaySystem` | src/main.rs:114-144 | every card with a directive is advanced by exactly one `Step` with its own draws, at the same clock reading |
| `Spatial.LerpEnds` | src/main.rs:159-162 | interpolation at 0 gives the start and at 1 the target |
| `Spatial.TruncateExtend` | src/main.rs:163 | writing an xy back at a depth keeps that xy and that depth |
| `CardIdentity.CardFor` | src/main.rs:334-362 | the `match i` of the deal loop: every index gets an ordinal of at least 1 and a rank in 1..13 that restarts every thirteen ordinals |
| `CardIdentity.DealtCardNumbering` | src/main.rs:357-362 | every dealt card has ordinal i + 1 in 1..52 and rank i % 13 + 1 in 1..13 |
| `CardIdentity.SuitByRange` | src/main.rs:334-350 | indices 0–12 are Hearts, 13–25 Spades, 26–39 Diamonds, 40–51 Clubs, each in both directions |
| `CardIdentity.ColorFollowsSuitExactlyInArms` | src/main.rs:334-356 | color is Red exactly for Hearts and Diamonds on every index a range arm matches, and only the unreachable fallback arm breaks this |
| `CardIdentity.DeckSuitCounts` | src/main.rs:321-350 | the 52 dealt cards are 13 Hearts, 13 Spades, 14 Diamonds and 12 Clubs |
| `CardIdentity.DiamondsArmTakesIndex39` | src/main.rs:343-359 | indices 26 and 39 are both the Diamonds ace, and no Clubs ace is dealt |
| `CardIdentity.AsWrittenDiffersOnlyAt39` | src/main.rs:343-350 | the deal as written and the intended deal differ at index 39 only |
| `CardIdentity.IntendedBlockStart` | src/main.rs:334-350 | each suit's block in the intended deal starts at a multiple of 13 and fits in the deck |
| `CardIdentity.IntendedSuitCounts` | src/main.rs:334-350 | in the intended deal each suit has 13 cards |
| `CardIdentity.IntendedDeckIsComplete` | src/main.rs:334-362 | in the intended deal every (suit, rank) pair is dealt, with its color following its suit |
| `CardIdentity.IntendedDealsEachCardOnce` | src/main.rs:334-362 | in the intended deal two indices with the same suit and rank are the same index |
| `CardVisuals.FrontFaceVisibility` | src/systems/cards.rs:19-25 | the front-face decision is always Visible or Hidden, never left inherited |
| `CardVisuals.BackFaceVisibility` | src/systems/cards.rs:35-41 | the back-face decision is always Visible or Hidden, never left inherited |
| `CardVisuals.NeverBothVisible` | src/systems/cards.rs:20-36 | for the same facing, front and back are never both shown |
| `CardVisuals.ExactlyOneVisibleUnlessEdgeOn` | src/systems/cards.rs:20-40 | at dot product 0 both faces are hidden; otherwise exactly one is shown |
| `CardVisuals.TurningOverSwapsFaces` | src/systems/cards.rs:19-41 | negating the dot product swaps the front's and the back's visibility |
| `CardVisuals.CardVisualKeepFaceUp` | src/systems/cards.rs:11-26 | every front face's visibility is overwritten by the rule applied to its own dot product, whatever it was before |
| `CardVisuals.CardVisualKeepBackUp` | src/systems/cards.rs:27-42 | every back face's visibility is overwritten by the rule applied to its own dot product, whatever it was before |
| `Main.CardFaceUp` | src/main.rs:193-208 | the application's front-face system sets exactly what the plugin's does |
| `Main.CardBackUp` | src/main.rs:209-224 | the application's back-face system sets exactly what the plugin's does |
| `Main.Setup` | src/main.rs:295-398 | ten slots at the drawn positions; card i is `CardFor(i)` with a fresh transform at its drawn position and a fresh, distinct directive in its initial, valid state |

## Left out

- Rotation during a move (Euler angles from the spin frequencies and the progress, turned into a quaternion, `src/main.rs:164-172`): 32-bit floating point and trigonometry; only the spin frequencies are kept, and proved never to change.
- Positions are real numbers: the rounding of the engine's 32-bit floats in the interpolation is not modelled.
- `MoveCards.Step`: a Moving tick whose move has zero length is excluded by `TickPre` (the program divides by zero and writes a NaN or infinite position); `ValidEnablesTick` shows the case never arises from the set-up state.
- `MoveCards.Step`: a Moving tick with the clock before the start of the move is excluded (unsigned subtraction: a panic in debug builds, a wrap-around in release builds); with a clock that does not go back it never happens.
- The clock and timestamps are unbounded naturals: overflow of the 128-bit millisecond counter is not modelled.
- The random number generator: every draw is a parameter constrained to its range.
- The order in which the engine's queries visit entities is taken to be sequence order; query filters are represented by which sequences are passed in.
- The face systems' dot product of the world back axis with the z axis is an input per face entity; the global transform it comes from is not modelled.
- `keyboard_input` (a debug cursor over the cards with console output), `_test_system` (unused), the inspector plugin, the camera, asset loading, the texture atlas and `CARD_SIZE`: user-interface and rendering glue. `CurrentCard` and `Cards` are declared as datatypes only.

## Findings

| source | as written | input that shows it | evidently intended | confidence | as-written member | corrected member |
|---|---|---|---|---|---|---|
| src/main.rs:343-349 | the Diamonds arm matches `26..=39` and the Clubs arm `40..=52` | deal index 39: dealt as a Diamonds ace, a second one beside index 26, so Diamonds has 14 cards, Clubs 12 and no Clubs ace | Diamonds on `26..=38` and Clubs on `39..=51`, four suits of thirteen, every (suit, rank) once | likely; not executed | `CardIdentity.DiamondsArmTakesIndex39` | `CardIdentity.IntendedDeckIsComplete` |

The rank `i % 13 + 1` restarts at 1 every thirteen indices, so each block of thirteen is meant
to be one suit. `Main.Setup` keeps the deal as written (`CardFor`), since it models the
program; `IntendedCardFor` is the corrected deal, with its completeness proved.
