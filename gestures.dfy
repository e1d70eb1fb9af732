/** Hit testing, short/long classification, and the scan over the circle
    list that a press or a release performs. */
module Gestures {
  import opened GameTypes

  /** Inclusive hit test against the ring of radius 40. */
  predicate Hit(c: Circle, x: int, y: int) {
    SqDist(x, y, c.x, c.y) <= Radius * Radius
  }

  /** A circle an event at (x, y) acts on: not yet done and containing the point. */
  predicate Targeted(c: Circle, x: int, y: int) {
    !c.done && Hit(c, x, y)
  }

  /** The verdict on a hold of `duration` seconds for a target asking for `action`. */
  predicate IsCorrect(action: Action, duration: real, threshold: real) {
    match action
    case Short => duration < threshold
    case Long => duration >= threshold
  }

  function OutlineFor(correct: bool): Outline {
    if correct then Green else Red
  }

  /** Every duration is correct for exactly one of the two gestures. */
  lemma GesturesPartitionDurations(duration: real, threshold: real)
    ensures IsCorrect(Short, duration, threshold) != IsCorrect(Long, duration, threshold)
    ensures IsCorrect(Short, duration, threshold) <==> duration < threshold
  {
  }

  /** The boundary cases at the first level's threshold. */
  lemma ClassificationAtThreshold()
    ensures IsCorrect(Short, 0.79, 0.8) && !IsCorrect(Short, 0.8, 0.8)
    ensures IsCorrect(Long, 0.8, 0.8) && !IsCorrect(Long, 0.79, 0.8)
  {
  }

  /** The state of a scan: the (partly updated) circle list, the outline
      each circle has been repainted with during this event, if any, and
      whether the scan raised (the release reached a circle with no press time). */
  datatype Scan = Scan(circles: seq<Circle>, outlines: seq<Option<Outline>>, raised: bool)

  /** A release over a target that was never pressed: subtracting the
      missing press time raises. */
  predicate Blocks(c: Circle, x: int, y: int, ev: Event) {
    ev.Release? && Targeted(c, x, y) && c.pressedTime.None?
  }

  /** One iteration of the scan, at index i. */
  function Step(s: Scan, i: nat, x: int, y: int, ev: Event, threshold: real): (r: Scan)
    requires i < |s.circles| == |s.outlines|
    ensures |r.circles| == |s.circles| && |r.outlines| == |s.outlines|
  {
    var c := s.circles[i];
    if !Targeted(c, x, y) then s
    else match ev
      case Press(t) =>
        s.(circles := s.circles[i := c.(pressedTime := Some(t))])
      case Release(t) =>
        match c.pressedTime
        case None => s.(raised := true)
        case Some(p) =>
          s.(circles := s.circles[i := c.(done := true)],
             outlines := s.outlines[i := Some(OutlineFor(IsCorrect(c.action, t - p, threshold)))])
  }

  /** The scan after its first n iterations; once it has raised, nothing more happens. */
  function ScanUpTo(cs: seq<Circle>, x: int, y: int, ev: Event, threshold: real, n: nat): (r: Scan)
    requires n <= |cs|
    ensures |r.circles| == |cs| && |r.outlines| == |cs|
  {
    if n == 0 then Scan(cs, seq(|cs|, _ => None), false)
    else
      var s := ScanUpTo(cs, x, y, ev, threshold, n - 1);
      if s.raised then s else Step(s, n - 1, x, y, ev, threshold)
  }

  /** The whole scan over the circle list. */
  function ScanAll(cs: seq<Circle>, x: int, y: int, ev: Event, threshold: real): Scan {
    ScanUpTo(cs, x, y, ev, threshold, |cs|)
  }

  /** No circle before index n blocks the scan. */
  predicate ClearBefore(cs: seq<Circle>, x: int, y: int, ev: Event, n: nat)
    requires n <= |cs|
  {
    forall j :: 0 <= j < n ==> !Blocks(cs[j], x, y, ev)
  }

  /** What an event does to a circle it acts on. */
  function Effect(c: Circle, ev: Event): Circle {
    match ev
    case Press(t) => c.(pressedTime := Some(t))
    case Release(_) => c.(done := true)
  }

  /** The outline an event gives a circle it acts on. */
  function Painted(c: Circle, ev: Event, threshold: real): Option<Outline> {
    match ev
    case Press(_) => None
    case Release(t) =>
      match c.pressedTime
      case None => None
      case Some(p) => Some(OutlineFor(IsCorrect(c.action, t - p, threshold)))
  }

  /** Whether the scan acts on circle k: it is reached (k < n, no earlier
      circle blocked), the event hits it, and it does not block itself. */
  predicate ActsOn(cs: seq<Circle>, x: int, y: int, ev: Event, n: nat, k: nat)
    requires n <= |cs| && k < |cs|
  {
    k < n && Targeted(cs[k], x, y) && ClearBefore(cs, x, y, ev, k + 1)
  }

  /** Characterisation of the scan: it raises exactly when some circle among
      the first n blocks, and it changes a circle (and, on a release,
      repaints it) exactly when it acts on it. */
  lemma {:induction false} ScanUpToEffect(cs: seq<Circle>, x: int, y: int, ev: Event, threshold: real, n: nat)
    requires n <= |cs|
    ensures var r := ScanUpTo(cs, x, y, ev, threshold, n);
      && (r.raised <==> !ClearBefore(cs, x, y, ev, n))
      && forall k :: 0 <= k < |cs| ==>
           && r.circles[k] == (if ActsOn(cs, x, y, ev, n, k) then Effect(cs[k], ev) else cs[k])
           && r.outlines[k] == (if ActsOn(cs, x, y, ev, n, k) then Painted(cs[k], ev, threshold) else None)
  {
    if n > 0 {
      ScanUpToEffect(cs, x, y, ev, threshold, n - 1);
      var s := ScanUpTo(cs, x, y, ev, threshold, n - 1);
      var r := ScanUpTo(cs, x, y, ev, threshold, n);
      var i := n - 1;
      assert forall k :: 0 <= k < |cs| && k != i ==>
        ActsOn(cs, x, y, ev, n, k) == ActsOn(cs, x, y, ev, n - 1, k);
      if s.raised {
        assert !ClearBefore(cs, x, y, ev, n);
        assert !ActsOn(cs, x, y, ev, n, i);
      } else {
        assert !ActsOn(cs, x, y, ev, n - 1, i);
        assert s.circles[i] == cs[i];
        if !Targeted(cs[i], x, y) {
          assert !Blocks(cs[i], x, y, ev);
          assert !ActsOn(cs, x, y, ev, n, i);
        } else if Blocks(cs[i], x, y, ev) {
          assert !ClearBefore(cs, x, y, ev, n);
          assert !ActsOn(cs, x, y, ev, n, i);
        } else {
          assert ClearBefore(cs, x, y, ev, n);
          assert ActsOn(cs, x, y, ev, n, i);
        }
      }
    }
  }

  /** A press never raises; it stamps exactly the not-done circles that
      contain the point (overwriting an earlier stamp), never touches a
      `done` flag, repaints nothing, and leaves every other circle as it was. */
  lemma PressStampsTargets(cs: seq<Circle>, x: int, y: int, t: real, threshold: real)
    ensures var r := ScanAll(cs, x, y, Press(t), threshold);
      && !r.raised
      && forall k :: 0 <= k < |cs| ==>
           && r.circles[k] == (if Targeted(cs[k], x, y) then cs[k].(pressedTime := Some(t)) else cs[k])
           && r.circles[k].done == cs[k].done
           && r.outlines[k] == None
  {
    ScanUpToEffect(cs, x, y, Press(t), threshold, |cs|);
  }

  /** A release over targets that were all pressed resolves every one of
      them, paints each green exactly when its gesture was correct, and
      leaves every other circle as it was. */
  lemma ReleaseResolvesTargets(cs: seq<Circle>, x: int, y: int, t: real, threshold: real)
    requires forall k :: 0 <= k < |cs| && Targeted(cs[k], x, y) ==> cs[k].pressedTime.Some?
    ensures var r := ScanAll(cs, x, y, Release(t), threshold);
      && !r.raised
      && forall k :: 0 <= k < |cs| ==>
           && r.circles[k] == (if Targeted(cs[k], x, y) then cs[k].(done := true) else cs[k])
           && r.outlines[k] == (if Targeted(cs[k], x, y)
                                then Some(OutlineFor(IsCorrect(cs[k].action, t - cs[k].pressedTime.value, threshold)))
                                else None)
  {
    ScanUpToEffect(cs, x, y, Release(t), threshold, |cs|);
  }

  /** A release reaching, at index f, a target with no press time raises;
      the targets before f are already resolved and painted, and f and
      everything after it are as they were. */
  lemma ReleaseRaisesAtUnpressed(cs: seq<Circle>, x: int, y: int, t: real, threshold: real, f: nat)
    requires f < |cs| && Targeted(cs[f], x, y) && cs[f].pressedTime.None?
    requires forall k :: 0 <= k < f && Targeted(cs[k], x, y) ==> cs[k].pressedTime.Some?
    ensures var r := ScanAll(cs, x, y, Release(t), threshold);
      && r.raised
      && forall k :: 0 <= k < |cs| ==>
           && r.circles[k] == (if k < f && Targeted(cs[k], x, y) then cs[k].(done := true) else cs[k])
           && r.outlines[k] == (if k < f && Targeted(cs[k], x, y)
                                then Some(OutlineFor(IsCorrect(cs[k].action, t - cs[k].pressedTime.value, threshold)))
                                else None)
  {
    var ev := Release(t);
    ScanUpToEffect(cs, x, y, ev, threshold, |cs|);
    assert Blocks(cs[f], x, y, ev);
    forall k | 0 <= k < |cs|
      ensures ActsOn(cs, x, y, ev, |cs|, k) <==> k < f && Targeted(cs[k], x, y)
    {
      if k >= f {
        assert !ClearBefore(cs, x, y, ev, k + 1);
      }
    }
  }

  /** Neither event ever resets `done`, moves a circle or changes its
      gesture; a circle already done is left exactly as it was. */
  lemma ScanKeepsDoneAndPlace(cs: seq<Circle>, x: int, y: int, ev: Event, threshold: real)
    ensures var r := ScanAll(cs, x, y, ev, threshold);
      forall k :: 0 <= k < |cs| ==>
        && (cs[k].done ==> r.circles[k] == cs[k])
        && (cs[k].done ==> r.circles[k].done)
        && r.circles[k].x == cs[k].x && r.circles[k].y == cs[k].y
        && r.circles[k].action == cs[k].action && r.circles[k].id == cs[k].id
  {
    ScanUpToEffect(cs, x, y, ev, threshold, |cs|);
  }

  /** A press and a later release at the same point resolve every target
      under it, judged on the time between the two events. */
  lemma PressThenRelease(cs: seq<Circle>, x: int, y: int, t0: real, t1: real, threshold: real)
    ensures var p := ScanAll(cs, x, y, Press(t0), threshold).circles;
      var r := ScanAll(p, x, y, Release(t1), threshold);
      && !r.raised
      && forall k :: 0 <= k < |cs| ==>
           && r.circles[k] == (if Targeted(cs[k], x, y) then cs[k].(pressedTime := Some(t0), done := true) else cs[k])
           && r.outlines[k] == (if Targeted(cs[k], x, y)
                                then Some(OutlineFor(IsCorrect(cs[k].action, t1 - t0, threshold)))
                                else None)
  {
    PressStampsTargets(cs, x, y, t0, threshold);
    var p := ScanAll(cs, x, y, Press(t0), threshold).circles;
    assert forall k :: 0 <= k < |p| ==> Targeted(p[k], x, y) == Targeted(cs[k], x, y);
    ReleaseResolvesTargets(p, x, y, t1, threshold);
  }

  /** Every circle of the level is done. */
  predicate AllDone(cs: seq<Circle>) {
    forall k :: 0 <= k < |cs| ==> cs[k].done
  }

  /** A release that does not raise completes the level exactly when every
      circle was already done or lies under the release point. */
  lemma ReleaseCompletesLevel(cs: seq<Circle>, x: int, y: int, t: real, threshold: real)
    requires forall k :: 0 <= k < |cs| && Targeted(cs[k], x, y) ==> cs[k].pressedTime.Some?
    ensures AllDone(ScanAll(cs, x, y, Release(t), threshold).circles)
        <==> forall k :: 0 <= k < |cs| ==> cs[k].done || Hit(cs[k], x, y)
  {
    ReleaseResolvesTargets(cs, x, y, t, threshold);
  }

  /** On a level whose circles are all done (the second between completion
      and rebuild) a press or release finds nothing to act on. */
  lemma ScanOverFinishedLevel(cs: seq<Circle>, x: int, y: int, ev: Event, threshold: real)
    requires AllDone(cs)
    ensures ScanAll(cs, x, y, ev, threshold) == Scan(cs, seq(|cs|, _ => None), false)
  {
    ScanUpToEffect(cs, x, y, ev, threshold, |cs|);
    var r := ScanAll(cs, x, y, ev, threshold);
    assert r.circles == cs;
    assert r.outlines == seq(|cs|, _ => None);
  }
}
