/**
 * The hidden texts (the elements carrying data-reveal, index.js:9) and the
 * loops of index.js that add and remove their "revealed" class: the desktop
 * proximity check (67-86), the touch reveal (103-117), the easter-egg
 * reveal-all (231-233) and the hiding of fixed elements on mobile (94-100).
 */
module Reveal {
  import opened Geometry

  /** REVEAL_DISTANCE of index.js:14. */
  const RevealDistance: real := 150.0

  /** The radius of a tap (index.js:112). */
  const TouchRevealDistance: real := 100.0

  class HiddenTexts {
    /** Whether element i has the class hidden-text-inline. */
    const inline: seq<bool>
    /** Whether element i is positioned "fixed", by its own style or the computed one. */
    const fixedPosition: seq<bool>
    /** Whether element i has the class "revealed". */
    const revealed: array<bool>
    /** Whether element i has been given style.display = 'none'. */
    const displayNone: array<bool>

    ghost predicate Valid()
      reads this
    {
      revealed != displayNone &&
      revealed.Length == |inline| == |fixedPosition| == displayNone.Length
    }

    /** The elements as the page loads them: none revealed, none hidden by script. */
    constructor (inline: seq<bool>, fixedPosition: seq<bool>)
      requires |inline| == |fixedPosition|
      ensures Valid() && fresh(revealed) && fresh(displayNone)
      ensures this.inline == inline && this.fixedPosition == fixedPosition
      ensures forall i :: 0 <= i < revealed.Length ==> !revealed[i] && !displayNone[i]
    {
      this.inline := inline;
      this.fixedPosition := fixedPosition;
      revealed := new bool[|inline|](_ => false);
      displayNone := new bool[|inline|](_ => false);
    }

    /**
     * checkProximity(x, y) (index.js:67-86): every element is revealed exactly
     * when the pointer is strictly closer than RevealDistance to the centre of
     * its box, and un-revealed otherwise. layout[i] is element i's box.
     */
    method CheckProximity(x: real, y: real, layout: seq<Rect>)
      requires Valid() && |layout| == revealed.Length
      modifies revealed
      ensures forall i :: 0 <= i < revealed.Length ==>
        (revealed[i] <==> Within(x, y, layout[i], RevealDistance))
    {
      var i := 0;
      while i < revealed.Length
        invariant 0 <= i <= revealed.Length
        invariant forall j :: 0 <= j < i ==> (revealed[j] <==> Within(x, y, layout[j], RevealDistance))
      {
        if Within(x, y, layout[i], RevealDistance) {
          revealed[i] := true;
        } else {
          revealed[i] := false;
        }
        i := i + 1;
      }
    }

    /**
     * The touchstart handler (index.js:103-117): an inline element strictly
     * closer than TouchRevealDistance to the touch point gets revealed; no
     * element is ever un-revealed and non-inline elements are left alone.
     */
    method TouchReveal(x: real, y: real, layout: seq<Rect>)
      requires Valid() && |layout| == revealed.Length
      modifies revealed
      ensures forall i :: 0 <= i < revealed.Length ==>
        revealed[i] == (old(revealed[i]) || (inline[i] && Within(x, y, layout[i], TouchRevealDistance)))
    {
      var i := 0;
      while i < revealed.Length
        invariant 0 <= i <= revealed.Length
        invariant forall j :: 0 <= j < i ==>
          revealed[j] == (old(revealed[j]) || (inline[j] && Within(x, y, layout[j], TouchRevealDistance)))
        invariant forall j :: i <= j < revealed.Length ==> revealed[j] == old(revealed[j])
      {
        if inline[i] {
          if Within(x, y, layout[i], TouchRevealDistance) {
            revealed[i] := true;
          }
        }
        i := i + 1;
      }
    }

    /** The easter egg's loop (index.js:231-233): every element gets revealed. */
    method RevealAll()
      requires Valid()
      modifies revealed
      ensures forall i :: 0 <= i < revealed.Length ==> revealed[i]
    {
      var i := 0;
      while i < revealed.Length
        invariant 0 <= i <= revealed.Length
        invariant forall j :: 0 <= j < i ==> revealed[j]
      {
        revealed[i] := true;
        i := i + 1;
      }
    }

    /** On touch or narrow screens (index.js:94-100): every fixed element gets display none. */
    method HideFixed()
      requires Valid()
      modifies displayNone
      ensures forall i :: 0 <= i < displayNone.Length ==> displayNone[i] == (old(displayNone[i]) || fixedPosition[i])
    {
      var i := 0;
      while i < displayNone.Length
        invariant 0 <= i <= displayNone.Length
        invariant forall j :: 0 <= j < i ==> displayNone[j] == (old(displayNone[j]) || fixedPosition[j])
        invariant forall j :: i <= j < displayNone.Length ==> displayNone[j] == old(displayNone[j])
      {
        if fixedPosition[i] {
          displayNone[i] := true;
        }
        i := i + 1;
      }
    }
  }

  /**
   * What a tap can reveal, a hovering pointer at the same spot reveals too:
   * the touch radius lies inside the desktop radius.
   */
  lemma TapInsideHover(x: real, y: real, r: Rect)
    ensures Within(x, y, r, TouchRevealDistance) ==> Within(x, y, r, RevealDistance)
  {
    WithinGrows(x, y, r, TouchRevealDistance, RevealDistance);
  }
}
