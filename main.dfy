/**
  The start-up system and the two face systems registered by the application itself:
  `setup` places the slots and deals the 52 cards, each with its shuffle directive;
  `card_face_up` and `card_back_up` apply the same facing rule as the card visuals plugin.
 */
module Main {

  import opened Wrappers
  import opened Spatial
  import opened CardComponents
  import opened CardIdentity
  import opened MoveCards
  import opened CardVisuals

  /** Number of slots `setup` places. */
  const SlotCount: nat := 10

  /** Half the side of the square in which `setup` scatters slots and cards. */
  const Scatter: real := 300.0

  predicate InScatter(c: real)
  {
    -Scatter <= c <= Scatter
  }

  /**
    `setup`, without the camera and the sprites: slot k is entity k at `slotPositions[k]`, and
    card i is dealt as `CardFor(i)`, placed at `cardPositions[i]` with a fresh transform and a
    fresh directive that starts a move on the first tick. The random positions and spin
    frequencies are parameters within the ranges they are drawn from.
   */
  method Setup(slotPositions: seq<Vec3>, cardPositions: seq<Vec3>, freqs: seq<RotationFreqs>)
    returns (slots: seq<Slot>, cards: seq<Card>, transforms: seq<Transform>, movers: seq<MoveCardsWithDelay>)
    requires |slotPositions| == SlotCount && |cardPositions| == DeckSize && |freqs| == DeckSize
    requires forall k :: 0 <= k < SlotCount ==>
               InScatter(slotPositions[k].x) && InScatter(slotPositions[k].y) && slotPositions[k].z == 0.0
    requires forall k :: 0 <= k < DeckSize ==>
               InScatter(cardPositions[k].x) && InScatter(cardPositions[k].y) && InScatter(cardPositions[k].z)
    requires forall k :: 0 <= k < DeckSize ==> FreqsInRange(freqs[k])
    ensures |slots| == SlotCount && forall k :: 0 <= k < SlotCount ==> slots[k] == Slot(k, slotPositions[k])
    ensures |cards| == DeckSize && forall k :: 0 <= k < DeckSize ==> cards[k] == CardFor(k)
    ensures |transforms| == DeckSize && |movers| == DeckSize
    ensures forall k :: 0 <= k < DeckSize ==>
              && fresh(transforms[k]) && fresh(movers[k])
              && transforms[k].translation == cardPositions[k]
              && movers[k].Value() == InitialDirective(cardPositions[k], freqs[k])
              && Valid(movers[k].Value(), slots)
    ensures forall i, j :: 0 <= i < j < DeckSize ==> movers[i] != movers[j] && transforms[i] != transforms[j]
  {
    slots := [];
    for k := 0 to SlotCount
      invariant |slots| == k
      invariant forall j :: 0 <= j < k ==> slots[j] == Slot(j, slotPositions[j])
    {
      slots := slots + [Slot(k, slotPositions[k])];
    }
    cards, transforms, movers := [], [], [];
    for i := 0 to DeckSize
      invariant |cards| == i && |transforms| == i && |movers| == i
      invariant forall k :: 0 <= k < i ==> cards[k] == CardFor(k)
      invariant forall k :: 0 <= k < i ==>
                  && fresh(transforms[k]) && fresh(movers[k])
                  && transforms[k].translation == cardPositions[k]
                  && movers[k].Value() == InitialDirective(cardPositions[k], freqs[k])
      invariant forall a, b :: 0 <= a < b < i ==> movers[a] != movers[b] && transforms[a] != transforms[b]
    {
      var c := CardFor(i);
      var tx := new Transform(cardPositions[i]);
      var mover := new MoveCardsWithDelay(cardPositions[i], freqs[i]);
      cards, transforms, movers := cards + [c], transforms + [tx], movers + [mover];
    }
    forall k | 0 <= k < DeckSize
      ensures Valid(movers[k].Value(), slots)
    {
      InitialIsValid(cardPositions[k], freqs[k], slots);
    }
  }

  /** `card_face_up`: the application's own copy of the front-face rule, over every front face. */
  method CardFaceUp(vis: array<Visibility>, backDotZ: seq<real>)
    requires vis.Length == |backDotZ|
    modifies vis
    ensures forall k :: 0 <= k < vis.Length ==> vis[k] == FrontFaceVisibility(backDotZ[k])
  {
    for i := 0 to vis.Length
      invariant forall k :: 0 <= k < i ==> vis[k] == FrontFaceVisibility(backDotZ[k])
    {
      var dot := backDotZ[i];
      vis[i] := if dot > 0.0 then Visible else Hidden;
    }
  }

  /** `card_back_up`: the application's own copy of the back-face rule, over every back face. */
  method CardBackUp(vis: array<Visibility>, backDotZ: seq<real>)
    requires vis.Length == |backDotZ|
    modifies vis
    ensures forall k :: 0 <= k < vis.Length ==> vis[k] == BackFaceVisibility(backDotZ[k])
  {
    for i := 0 to vis.Length
      invariant forall k :: 0 <= k < i ==> vis[k] == BackFaceVisibility(backDotZ[k])
    {
      var dot := backDotZ[i];
      vis[i] := if dot < 0.0 then Visible else Hidden;
    }
  }
}
