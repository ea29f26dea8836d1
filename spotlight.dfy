/** The mobile "spotlight": on a touch device, the photo card whose vertical
    centre is nearest to the centre of the viewport gets the `show-caption`
    class, and every other card loses it (script.js, updateVisiblePhoto).

    Layout is not modelled: each card is given by the `top` and `height` of its
    bounding rectangle, relative to the viewport, as exact reals. */
module Spotlight {

  datatype Option<T> = None | Some(value: T)

  /** The part of a card's bounding client rectangle the selector reads. */
  datatype Rect = Rect(top: real, height: real)

  /** The running minimum of the scan starts at `Infinity`. */
  datatype Bound = Finite(value: real) | Infinity

  function Abs(x: real): real {
    if x < 0.0 then -x else x
  }

  /** Distance between the card's vertical centre and the viewport's. */
  function Distance(card: Rect, innerHeight: real): (d: real)
    ensures d >= 0.0
    ensures d == 0.0 <==> card.top + card.height / 2.0 == innerHeight / 2.0
    ensures d == card.top + card.height / 2.0 - innerHeight / 2.0
         || d == innerHeight / 2.0 - (card.top + card.height / 2.0)
  {
    Abs(card.top + card.height / 2.0 - innerHeight / 2.0)
  }

  /** `d < bound`, where every real is below `Infinity`. */
  predicate Below(d: real, bound: Bound) {
    bound.Infinity? || d < bound.value
  }

  /** Card `k` is nearest to the viewport centre, and no earlier card is as near:
      the card a strict-`<` left-to-right scan settles on. */
  predicate IsFirstNearest(cards: seq<Rect>, innerHeight: real, k: int) {
    && 0 <= k < |cards|
    && (forall j :: 0 <= j < |cards| ==> Distance(cards[k], innerHeight) <= Distance(cards[j], innerHeight))
    && (forall j :: 0 <= j < k ==> Distance(cards[k], innerHeight) < Distance(cards[j], innerHeight))
  }

  /** At most one card is the first nearest. */
  lemma NearestUnique(cards: seq<Rect>, innerHeight: real, k: int, m: int)
    requires IsFirstNearest(cards, innerHeight, k)
    requires IsFirstNearest(cards, innerHeight, m)
    ensures k == m
  {
    // each is at least as near as the other; a strict `<` would separate them
    assert Distance(cards[k], innerHeight) == Distance(cards[m], innerHeight);
  }

  /** The single forEach pass of updateVisiblePhoto: `closestCard` stays `null`
      (None) exactly when there are no cards; otherwise it is the first card of
      minimal distance, and no other card is. */
  method ClosestCard(innerHeight: real, cards: array<Rect>) returns (closest: Option<nat>)
    ensures closest.None? <==> cards.Length == 0
    ensures forall k :: IsFirstNearest(cards[..], innerHeight, k) <==> closest == Some(k)
  {
    closest := None;
    var closestDistance := Infinity;
    var i := 0;
    while i < cards.Length
      invariant 0 <= i <= cards.Length
      invariant closest.None? <==> i == 0
      invariant closest.None? <==> closestDistance.Infinity?
      invariant closest.Some? ==> closest.value < i
      invariant closest.Some? ==> closestDistance == Finite(Distance(cards[closest.value], innerHeight))
      invariant closest.Some? ==> forall j :: 0 <= j < i ==>
                  Distance(cards[closest.value], innerHeight) <= Distance(cards[j], innerHeight)
      invariant closest.Some? ==> forall j :: 0 <= j < closest.value ==>
                  Distance(cards[closest.value], innerHeight) < Distance(cards[j], innerHeight)
    {
      var distance := Distance(cards[i], innerHeight);
      if Below(distance, closestDistance) {
        closestDistance := Finite(distance);
        closest := Some(i);
      }
      i := i + 1;
    }
    if closest.Some? {
      forall k | IsFirstNearest(cards[..], innerHeight, k)
        ensures closest == Some(k)
      {
        NearestUnique(cards[..], innerHeight, k, closest.value);
      }
    }
  }

  /** Number of cards carrying `show-caption`. */
  function CountShown(flags: seq<bool>): (n: nat)
    ensures n <= |flags|
    ensures n == 0 ==> forall i :: 0 <= i < |flags| ==> !flags[i]
  {
    if flags == [] then 0
    else (if flags[0] then 1 else 0) + CountShown(flags[1..])
  }

  lemma {:induction false} NoneShown(flags: seq<bool>)
    requires forall i :: 0 <= i < |flags| ==> !flags[i]
    ensures CountShown(flags) == 0
  {
    if flags != [] {
      NoneShown(flags[1..]);
    }
  }

  /** Flags that are set at exactly one position count as one shown caption. */
  lemma {:induction false} OnlyOneShown(flags: seq<bool>, w: nat)
    requires w < |flags|
    requires forall i :: 0 <= i < |flags| ==> (flags[i] <==> i == w)
    ensures CountShown(flags) == 1
  {
    if w == 0 {
      NoneShown(flags[1..]);
    } else {
      OnlyOneShown(flags[1..], w - 1);
    }
  }

  /** updateVisiblePhoto: a no-op off touch devices and without cards;
      otherwise the caption is shown on the first nearest card and cleared on
      every other one, whatever its flag was before. */
  method UpdateVisiblePhoto(isTouchDevice: bool, innerHeight: real, cards: array<Rect>, showCaption: array<bool>)
    requires showCaption.Length == cards.Length
    modifies showCaption
    ensures !isTouchDevice || cards.Length == 0 ==> showCaption[..] == old(showCaption[..])
    ensures isTouchDevice && cards.Length > 0 ==>
      forall i :: 0 <= i < showCaption.Length ==> (showCaption[i] <==> IsFirstNearest(cards[..], innerHeight, i))
    ensures isTouchDevice && cards.Length > 0 ==> CountShown(showCaption[..]) == 1
  {
    if !isTouchDevice {
      return;
    }
    if cards.Length == 0 {
      return;
    }
    var closest := ClosestCard(innerHeight, cards);
    var i := 0;
    while i < showCaption.Length
      invariant 0 <= i <= showCaption.Length
      invariant forall j :: 0 <= j < i ==> !showCaption[j]
    {
      showCaption[i] := false;
      i := i + 1;
    }
    if closest.Some? {
      showCaption[closest.value] := true;
    }
    OnlyOneShown(showCaption[..], closest.value);
  }

  /** Three cards centred at 100, 300 and 500 in a viewport whose centre is
      310: the middle card (distance 10) is selected. */
  lemma MiddleCardScenario()
    ensures IsFirstNearest([Rect(50.0, 100.0), Rect(250.0, 100.0), Rect(450.0, 100.0)], 620.0, 1)
  {
  }

  /** Two cards both 50 away from the centre 310: the first one is selected. */
  lemma TieScenario()
    ensures IsFirstNearest([Rect(210.0, 100.0), Rect(310.0, 100.0)], 620.0, 0)
    ensures !IsFirstNearest([Rect(210.0, 100.0), Rect(310.0, 100.0)], 620.0, 1)
  {
  }
}
