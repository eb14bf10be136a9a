/**
  The face-visibility rule of the card visuals plugin: every frame, each front face and each
  back face is shown or hidden from the sign of the dot product between the face's world
  "back" axis and the world z axis. The dot product is taken as given, one per face entity.
 */
module CardVisuals {

  /** The engine's per-entity visibility flag. */
  datatype Visibility = Inherited | Hidden | Visible

  /** A front face is shown exactly when it faces the camera side (positive dot product). */
  function FrontFaceVisibility(dot: real): (v: Visibility)
    ensures v != Inherited
  {
    if dot > 0.0 then Visible else Hidden
  }

  /** A back face is shown exactly when the card is turned over (negative dot product). */
  function BackFaceVisibility(dot: real): (v: Visibility)
    ensures v != Inherited
  {
    if dot < 0.0 then Visible else Hidden
  }

  /** For the same facing, the front and the back are never both shown. */
  lemma NeverBothVisible(dot: real)
    ensures !(FrontFaceVisibility(dot) == Visible && BackFaceVisibility(dot) == Visible)
  {
  }

  /** Edge-on (dot product zero) both faces are hidden; otherwise exactly one is shown. */
  lemma ExactlyOneVisibleUnlessEdgeOn(dot: real)
    ensures dot == 0.0 ==> FrontFaceVisibility(dot) == Hidden && BackFaceVisibility(dot) == Hidden
    ensures dot != 0.0 ==> (FrontFaceVisibility(dot) == Visible <==> BackFaceVisibility(dot) == Hidden)
  {
  }

  /** Turning a card over (negating the dot product) swaps which face is shown. */
  lemma TurningOverSwapsFaces(dot: real)
    ensures FrontFaceVisibility(-dot) == BackFaceVisibility(dot)
    ensures BackFaceVisibility(-dot) == FrontFaceVisibility(dot)
  {
  }

  /**
    `card_visual_keep_face_up`: overwrites the visibility of every front face, face k from its
    own dot product `backDotZ[k]` alone, whatever the visibility was before.
   */
  method CardVisualKeepFaceUp(vis: array<Visibility>, backDotZ: seq<real>)
    requires vis.Length == |backDotZ|
    modifies vis
    ensures forall k :: 0 <= k < vis.Length ==> vis[k] == FrontFaceVisibility(backDotZ[k])
  {
    for i := 0 to vis.Length
      invariant forall k :: 0 <= k < i ==> vis[k] == FrontFaceVisibility(backDotZ[k])
    {
      vis[i] := if backDotZ[i] > 0.0 then Visible else Hidden;
    }
  }

  /**
    `card_visual_keep_back_up`: overwrites the visibility of every back face, face k from its
    own dot product `backDotZ[k]` alone, whatever the visibility was before.
   */
  method CardVisualKeepBackUp(vis: array<Visibility>, backDotZ: seq<real>)
    requires vis.Length == |backDotZ|
    modifies vis
    ensures forall k :: 0 <= k < vis.Length ==> vis[k] == BackFaceVisibility(backDotZ[k])
  {
    for i := 0 to vis.Length
      invariant forall k :: 0 <= k < i ==> vis[k] == BackFaceVisibility(backDotZ[k])
    {
      vis[i] := if backDotZ[i] < 0.0 then Visible else Hidden;
    }
  }
}
