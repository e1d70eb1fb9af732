/** The game session: the mutable state of the touch-test game and the
    event handlers that change it. */
module Session {
  import opened GameTypes
  import opened Levels
  import opened Gestures
  import opened Trails

  /** The circle built from an accepted draw, with ring id `id` and label id `id + 1`. */
  function NewCircle(c: Candidate, id: int): Circle {
    Circle(id, id + 1, c.x, c.y, c.action, None, false)
  }

  class GameSession {
    /** The targets of the current level, in placement order. */
    var circles: seq<Circle>
    var currentLevel: int
    /** Seconds a hold must last to count as a long press. */
    var minLongpressTime: real
    /** Dot item ids of each source's trail, oldest first. */
    var trails: map<Source, seq<int>>
    /** The next id given to a ring, label or trail dot (an abstract counter; a press's
        animation items are not counted). */
    var nextItemId: int
    /** Rebuilds scheduled (one second after a completing release) and not yet run. */
    var pendingRebuilds: nat

    ghost predicate TrailsOk()
      reads this
    {
      forall s :: s in trails ==> TrailOk(trails[s], nextItemId)
    }

    ghost predicate Valid()
      reads this
    {
      && currentLevel >= 1
      && |circles| >= 1
      && (pendingRebuilds == 0 ==> minLongpressTime == LongPressThreshold(currentLevel))
      && TrailsOk()
    }

    /** The trail of a source; a source never seen has an empty one. */
    function TrailOf(s: Source): seq<int>
      reads this
    {
      if s in trails then trails[s] else []
    }

    /** The initial state (level 1, threshold 0.8, no trails, no circles),
        then the first level is built from `draws`. */
    constructor (draws: seq<Candidate>)
      requires MaxAttempts <= |draws| && DrawsInRange(draws)
      ensures Valid()
      ensures currentLevel == 1 && pendingRebuilds == 0 && trails == map[]
      ensures minLongpressTime == 0.8
      ensures nextItemId == 1 + 2 * |circles|
      ensures var placed := Placement(1, draws);
        && |circles| == |placed|
        && forall k :: 0 <= k < |circles| ==> circles[k] == NewCircle(placed[k], 1 + 2 * k)
    {
      circles := [];
      currentLevel := 1;
      minLongpressTime := 0.8;
      trails := map[];
      nextItemId := 1;
      pendingRebuilds := 0;
      new;
      StartLevel(draws);
    }

    /** Builds the current level from the random draws: clears the circle
        list, places up to NumCircles(currentLevel) targets by rejection
        sampling over at most 200 draws, then sets the long-press threshold. */
    method StartLevel(draws: seq<Candidate>)
      requires currentLevel >= 1 && TrailsOk()
      requires MaxAttempts <= |draws| && DrawsInRange(draws)
      modifies this
      ensures Valid()
      ensures var placed := Placement(currentLevel, draws);
        && |circles| == |placed|
        && forall k :: 0 <= k < |circles| ==> circles[k] == NewCircle(placed[k], old(nextItemId) + 2 * k)
      ensures nextItemId == old(nextItemId) + 2 * |circles|
      ensures 1 <= |circles| <= NumCircles(currentLevel)
      ensures forall k :: 0 <= k < |circles| ==>
        && circles[k].pressedTime == None && !circles[k].done
        && MinX <= circles[k].x <= MaxX && MinY <= circles[k].y <= MaxY
      ensures forall i, j :: 0 <= i < j < |circles| ==>
        SqDist(circles[j].x, circles[j].y, circles[i].x, circles[i].y) >= MinDistance(currentLevel) * MinDistance(currentLevel)
      ensures minLongpressTime == LongPressThreshold(currentLevel)
      ensures currentLevel == old(currentLevel) && trails == old(trails)
      ensures pendingRebuilds == old(pendingRebuilds)
    {
      circles := [];
      var num := NumCircles(currentLevel);
      ghost var firstId := nextItemId;
      var generated, attempts := 0, 0;
      var positions: seq<Candidate> := [];
      while generated < num && attempts < MaxAttempts
        invariant 0 <= attempts <= MaxAttempts
        invariant generated == |positions| == |circles|
        invariant PlaceFrom(draws, num, MinDistance(currentLevel), attempts, positions)
               == Placement(currentLevel, draws)
        invariant forall k :: 0 <= k < |circles| ==> circles[k] == NewCircle(positions[k], firstId + 2 * k)
        invariant nextItemId == firstId + 2 * |circles|
        invariant trails == old(trails) && currentLevel == old(currentLevel)
        invariant pendingRebuilds == old(pendingRebuilds)
      {
        var c := draws[attempts];
        var minDistance := MinDistance(currentLevel);
        var overlap := Overlaps(c, positions, minDistance);
        if !overlap {
          positions := positions + [c];
          var cid := nextItemId;
          nextItemId := nextItemId + 2;
          circles := circles + [NewCircle(c, cid)];
          generated := generated + 1;
        }
        attempts := attempts + 1;
      }
      minLongpressTime := LongPressThreshold(currentLevel);
      BuiltCircles(currentLevel, draws, circles, firstId);
    }

    /** The scan `check_circle` makes over the circle list for one event.
        `outlines[k]` is the colour circle k was repainted with, if any;
        `raised` says the release hit a target that was never pressed, in
        which case the scan stopped there. */
    method CheckCircle(x: int, y: int, ev: Event) returns (outlines: seq<Option<Outline>>, raised: bool)
      modifies this
      ensures Scan(circles, outlines, raised) == ScanAll(old(circles), x, y, ev, old(minLongpressTime))
      ensures currentLevel == old(currentLevel) && minLongpressTime == old(minLongpressTime)
      ensures trails == old(trails) && nextItemId == old(nextItemId)
      ensures pendingRebuilds == old(pendingRebuilds)
    {
      outlines := seq(|circles|, _ => None);
      raised := false;
      var i := 0;
      while i < |circles| && !raised
        invariant 0 <= i <= |circles| == |old(circles)|
        invariant Scan(circles, outlines, raised) == ScanUpTo(old(circles), x, y, ev, minLongpressTime, i)
        invariant currentLevel == old(currentLevel) && minLongpressTime == old(minLongpressTime)
        invariant trails == old(trails) && nextItemId == old(nextItemId)
        invariant pendingRebuilds == old(pendingRebuilds)
      {
        var c := circles[i];
        if !c.done && Hit(c, x, y) {
          match ev {
            case Press(t) =>
              circles := circles[i := c.(pressedTime := Some(t))];
            case Release(releaseTime) =>
              match c.pressedTime {
                case None =>
                  raised := true;
                case Some(p) =>
                  var duration := releaseTime - p;
                  var correct := IsCorrect(c.action, duration, minLongpressTime);
                  circles := circles[i := c.(done := true)];
                  outlines := outlines[i := Some(OutlineFor(correct))];
              }
          }
        }
        i := i + 1;
      }
      if raised {
        RaisedScanStays(old(circles), x, y, ev, minLongpressTime, i);
      }
    }

    /** `check_level_complete`: when every circle is done, go up one level
        and schedule a rebuild. */
    method CheckLevelComplete()
      requires Valid()
      modifies this
      ensures Valid()
      ensures if AllDone(old(circles))
              then currentLevel == old(currentLevel) + 1 && pendingRebuilds == old(pendingRebuilds) + 1
              else currentLevel == old(currentLevel) && pendingRebuilds == old(pendingRebuilds)
      ensures circles == old(circles) && trails == old(trails) && nextItemId == old(nextItemId)
      ensures minLongpressTime == old(minLongpressTime)
    {
      if AllDone(circles) {
        currentLevel := currentLevel + 1;
        pendingRebuilds := pendingRebuilds + 1;
      }
    }

    /** `mouse_click`: a press at (x, y) at clock reading `now`. */
    method MousePress(x: int, y: int, now: real)
      requires Valid()
      modifies this
      ensures Valid()
      ensures |circles| == |old(circles)|
      ensures forall k :: 0 <= k < |circles| ==>
        circles[k] == (if Targeted(old(circles)[k], x, y) then old(circles)[k].(pressedTime := Some(now))
                       else old(circles)[k])
      ensures currentLevel == old(currentLevel) && minLongpressTime == old(minLongpressTime)
      ensures trails == old(trails) && nextItemId == old(nextItemId)
      ensures pendingRebuilds == old(pendingRebuilds)
    {
      PressStampsTargets(circles, x, y, now, minLongpressTime);
      var _, _ := CheckCircle(x, y, Press(now));
    }

    /** `mouse_release`: the scan for a release at (x, y) at clock reading
        `now`, then the level-complete check, unless the scan raised. */
    method MouseRelease(x: int, y: int, now: real) returns (outlines: seq<Option<Outline>>, raised: bool)
      requires Valid()
      modifies this
      ensures Valid()
      ensures var r := ScanAll(old(circles), x, y, Release(now), old(minLongpressTime));
        && circles == r.circles && outlines == r.outlines && raised == r.raised
      ensures if !raised && AllDone(circles)
              then currentLevel == old(currentLevel) + 1 && pendingRebuilds == old(pendingRebuilds) + 1
              else currentLevel == old(currentLevel) && pendingRebuilds == old(pendingRebuilds)
      ensures minLongpressTime == old(minLongpressTime)
      ensures trails == old(trails) && nextItemId == old(nextItemId)
    {
      outlines, raised := CheckCircle(x, y, Release(now));
      if !raised {
        CheckLevelComplete();
      }
    }

    /** The scheduled `start_level` callback firing. */
    method FireRebuild(draws: seq<Candidate>)
      requires Valid() && pendingRebuilds > 0
      requires MaxAttempts <= |draws| && DrawsInRange(draws)
      modifies this
      ensures Valid()
      ensures pendingRebuilds == old(pendingRebuilds) - 1
      ensures currentLevel == old(currentLevel) && trails == old(trails)
      ensures var placed := Placement(currentLevel, draws);
        && |circles| == |placed|
        && forall k :: 0 <= k < |circles| ==> circles[k] == NewCircle(placed[k], old(nextItemId) + 2 * k)
      ensures nextItemId == old(nextItemId) + 2 * |circles|
      ensures minLongpressTime == LongPressThreshold(currentLevel)
    {
      pendingRebuilds := pendingRebuilds - 1;
      StartLevel(draws);
    }

    /** `draw_trail`: a new dot for `source`, evicting the oldest past 20. */
    method DrawTrail(source: Source)
      requires Valid()
      modifies this
      ensures Valid()
      ensures trails == old(trails)[source := PushDot(old(TrailOf(source)), old(nextItemId))]
      ensures nextItemId == old(nextItemId) + 1
      ensures |TrailOf(source)| <= TrailMax
      ensures TrailOf(source)[|TrailOf(source)| - 1] == old(nextItemId)
      ensures |old(TrailOf(source))| == TrailMax ==> TrailOf(source) == old(TrailOf(source))[1..] + [old(nextItemId)]
      ensures forall s :: s != source ==> TrailOf(s) == old(TrailOf(s))
      ensures circles == old(circles) && currentLevel == old(currentLevel)
      ensures minLongpressTime == old(minLongpressTime) && pendingRebuilds == old(pendingRebuilds)
    {
      ghost var before := TrailOf(source);
      if source !in trails {
        trails := trails[source := []];
      }
      var dot := nextItemId;
      nextItemId := nextItemId + 1;
      var trail := trails[source] + [dot];
      if |trail| > TrailMax {
        trail := trail[1..];
      }
      assert trail == PushDot(before, dot);
      trails := trails[source := trail];
      PushDotProperties(before, dot);
      PushDotKeepsTrailOk(before, dot);
      forall s | s in trails
        ensures TrailOk(trails[s], nextItemId)
      {
        if s != source {
          TrailOkWeaken(old(trails)[s], dot, nextItemId);
        }
      }
    }
  }

  /** The circle list built from a level's placement: between 1 and
      NumCircles(level) fresh targets, inside the canvas ranges, pairwise at
      least MinDistance(level) apart. */
  lemma BuiltCircles(level: int, draws: seq<Candidate>, cs: seq<Circle>, firstId: int)
    requires level >= 1 && MaxAttempts <= |draws| && DrawsInRange(draws)
    requires |cs| == |Placement(level, draws)|
    requires forall k :: 0 <= k < |cs| ==> cs[k] == NewCircle(Placement(level, draws)[k], firstId + 2 * k)
    ensures 1 <= |cs| <= NumCircles(level)
    ensures forall k :: 0 <= k < |cs| ==>
      && cs[k].pressedTime == None && !cs[k].done
      && MinX <= cs[k].x <= MaxX && MinY <= cs[k].y <= MaxY
    ensures forall i, j :: 0 <= i < j < |cs| ==>
      SqDist(cs[j].x, cs[j].y, cs[i].x, cs[i].y) >= MinDistance(level) * MinDistance(level)
  {
    PlacementProperties(level, draws);
    var placed := Placement(level, draws);
    forall k | 0 <= k < |cs|
      ensures MinX <= cs[k].x <= MaxX && MinY <= cs[k].y <= MaxY
    {
      assert InCanvas(placed[k]);
    }
    forall i, j | 0 <= i < j < |cs|
      ensures SqDist(cs[j].x, cs[j].y, cs[i].x, cs[i].y) >= MinDistance(level) * MinDistance(level)
    {
      assert cs[j].x == placed[j].x && cs[j].y == placed[j].y && cs[i].x == placed[i].x && cs[i].y == placed[i].y;
    }
  }

  /** Once the scan has raised, later iterations change nothing. */
  lemma {:induction false} RaisedScanStays(cs: seq<Circle>, x: int, y: int, ev: Event, threshold: real, n: nat)
    requires n <= |cs|
    requires ScanUpTo(cs, x, y, ev, threshold, n).raised
    ensures ScanAll(cs, x, y, ev, threshold) == ScanUpTo(cs, x, y, ev, threshold, n)
    decreases |cs| - n
  {
    if n < |cs| {
      RaisedScanStays(cs, x, y, ev, threshold, n + 1);
    }
  }
}
