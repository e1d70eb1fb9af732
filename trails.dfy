/** The bounded pointer trails: one FIFO of dot item ids per input source. */
module Trails {

  /** Longest trail kept per source. */
  const TrailMax: nat := 20

  /** The input source a trail belongs to: the free mouse ("mouse") or a
      button drag ("touch" followed by the event's number). */
  datatype Source = Mouse | Touch(num: int)

  /** `draw_trail` on one list: append the new dot, then drop the oldest
      if the list has grown past the bound. */
  function PushDot(trail: seq<int>, dot: int): seq<int> {
    var t := trail + [dot];
    if |t| > TrailMax then t[1..] else t
  }

  lemma PushDotProperties(trail: seq<int>, dot: int)
    requires |trail| <= TrailMax
    ensures var r := PushDot(trail, dot);
      && |r| <= TrailMax
      && |r| > 0 && r[|r| - 1] == dot
      && (|trail| < TrailMax ==> r == trail + [dot])
      && (|trail| == TrailMax ==> r == trail[1..] + [dot])
  {
  }

  /** The last (at most) n elements of s. */
  function Newest(s: seq<int>, n: nat): (r: seq<int>)
    ensures |r| <= n && |r| <= |s|
  {
    if |s| <= n then s else s[|s| - n..]
  }

  /** A sequence of `draw_trail` calls on one source. */
  function PushAll(trail: seq<int>, dots: seq<int>): seq<int>
    decreases |dots|
  {
    if dots == [] then trail else PushAll(PushDot(trail, dots[0]), dots[1..])
  }

  lemma NewestDropFirst(s: seq<int>, n: nat)
    requires |s| > n
    ensures Newest(s[1..], n) == Newest(s, n)
  {
  }

  /** FIFO eviction: whatever dots are drawn, the trail holds exactly the
      20 most recent ones (all of them while there are fewer), oldest first. */
  lemma {:induction false} PushAllKeepsNewest(trail: seq<int>, dots: seq<int>)
    requires |trail| <= TrailMax
    ensures PushAll(trail, dots) == Newest(trail + dots, TrailMax)
    decreases |dots|
  {
    if dots == [] {
      assert trail + dots == trail;
    } else {
      var d := dots[0];
      var t := PushDot(trail, d);
      PushDotProperties(trail, d);
      PushAllKeepsNewest(t, dots[1..]);
      var whole := trail + dots;
      assert whole == (trail + [d]) + dots[1..];
      if |trail + [d]| > TrailMax {
        assert t + dots[1..] == whole[1..];
        NewestDropFirst(whole, TrailMax);
      } else {
        assert t + dots[1..] == whole;
      }
    }
  }

  /** A stored trail: within the bound, ids below `bound`, oldest first. */
  ghost predicate TrailOk(s: seq<int>, bound: int) {
    && |s| <= TrailMax
    && (forall i :: 0 <= i < |s| ==> s[i] < bound)
    && (forall i, j :: 0 <= i < j < |s| ==> s[i] < s[j])
  }

  lemma TrailOkWeaken(s: seq<int>, bound: int, bound': int)
    requires TrailOk(s, bound) && bound <= bound'
    ensures TrailOk(s, bound')
  {
  }

  /** Pushing a fresh id (the next one to be allocated) keeps a trail well formed. */
  lemma PushDotKeepsTrailOk(trail: seq<int>, dot: int)
    requires TrailOk(trail, dot)
    ensures TrailOk(PushDot(trail, dot), dot + 1)
  {
    var t := trail + [dot];
    assert forall i, j :: 0 <= i < j < |t| ==> t[i] < t[j] by {
      forall i, j | 0 <= i < j < |t| ensures t[i] < t[j] {
        if j == |trail| { assert t[i] == trail[i]; }
      }
    }
  }
}
