/** Level parameters and the rejection-sampling placement of a level's targets. */
module Levels {
  import opened GameTypes

  /** The placement loop gives up after this many draws. */
  const MaxAttempts: nat := 200

  /** Number of targets a level asks for. */
  function NumCircles(level: int): int {
    if 4 + level < 10 then 4 + level else 10
  }

  /** Minimum centre distance enforced between the targets of a level. */
  function MinDistance(level: int): int {
    if 80 - level * 2 > 50 then 80 - level * 2 else 50
  }

  /** Minimum hold time, in seconds, that counts as a long press. */
  function LongPressThreshold(level: int): real {
    0.8 + (level - 1) as real * 0.1
  }

  lemma LevelParameterBounds(level: int)
    requires level >= 1
    ensures 5 <= NumCircles(level) <= 10
    ensures 50 <= MinDistance(level) <= 78
    ensures LongPressThreshold(level) >= 0.8
    ensures LongPressThreshold(level + 1) == LongPressThreshold(level) + 0.1
  {
  }

  /** Higher levels ask for at least as many targets, packed at least as
      tightly, with a longer hold for a long press. */
  lemma LevelParametersMonotone(lo: int, hi: int)
    requires lo <= hi
    ensures NumCircles(lo) <= NumCircles(hi)
    ensures MinDistance(lo) >= MinDistance(hi)
    ensures LongPressThreshold(lo) <= LongPressThreshold(hi)
  {
  }

  predicate InCanvas(c: Candidate) {
    MinX <= c.x <= MaxX && MinY <= c.y <= MaxY
  }

  /** What the random source promises: every draw is in range. */
  predicate DrawsInRange(draws: seq<Candidate>) {
    forall i :: 0 <= i < |draws| ==> InCanvas(draws[i])
  }

  /** The rejection test: the candidate lies strictly closer than `minDist`
      to some centre accepted so far. */
  predicate Overlaps(c: Candidate, positions: seq<Candidate>, minDist: int) {
    exists i :: 0 <= i < |positions| && SqDist(c.x, c.y, positions[i].x, positions[i].y) < minDist * minDist
  }

  /** Every later centre is at least `minDist` away from every earlier one. */
  ghost predicate Separated(ps: seq<Candidate>, minDist: int) {
    forall i, j :: 0 <= i < j < |ps| ==> SqDist(ps[j].x, ps[j].y, ps[i].x, ps[i].y) >= minDist * minDist
  }

  /** The placement loop from the state (`attempts`, accepted centres `acc`)
      to its end: the accepted draws, in order. */
  function PlaceFrom(draws: seq<Candidate>, num: int, minDist: int, attempts: nat, acc: seq<Candidate>): seq<Candidate>
    requires attempts <= MaxAttempts <= |draws|
    decreases MaxAttempts - attempts
  {
    if |acc| < num && attempts < MaxAttempts then
      var c := draws[attempts];
      if Overlaps(c, acc, minDist) then PlaceFrom(draws, num, minDist, attempts + 1, acc)
      else PlaceFrom(draws, num, minDist, attempts + 1, acc + [c])
    else
      acc
  }

  /** The centres and gestures of the targets a level is built with. */
  function Placement(level: int, draws: seq<Candidate>): seq<Candidate>
    requires MaxAttempts <= |draws|
  {
    PlaceFrom(draws, NumCircles(level), MinDistance(level), 0, [])
  }

  lemma SeparatedAppend(acc: seq<Candidate>, c: Candidate, minDist: int)
    requires Separated(acc, minDist) && !Overlaps(c, acc, minDist)
    ensures Separated(acc + [c], minDist)
  {
    var ps := acc + [c];
    forall i, j | 0 <= i < j < |ps|
      ensures SqDist(ps[j].x, ps[j].y, ps[i].x, ps[i].y) >= minDist * minDist
    {
      if j < |acc| {
        assert ps[i] == acc[i] && ps[j] == acc[j];
      } else {
        assert ps[i] == acc[i] && ps[j] == c;
      }
    }
  }

  /** The loop only ever appends: it keeps what was accepted and never
      exceeds `num`. */
  lemma {:induction false} PlaceFromGrows(draws: seq<Candidate>, num: int, minDist: int, attempts: nat, acc: seq<Candidate>)
    requires attempts <= MaxAttempts <= |draws|
    requires |acc| <= num
    ensures var r := PlaceFrom(draws, num, minDist, attempts, acc);
      |acc| <= |r| <= num && r[..|acc|] == acc
    decreases MaxAttempts - attempts
  {
    if |acc| < num && attempts < MaxAttempts {
      var c := draws[attempts];
      if Overlaps(c, acc, minDist) {
        PlaceFromGrows(draws, num, minDist, attempts + 1, acc);
      } else {
        PlaceFromGrows(draws, num, minDist, attempts + 1, acc + [c]);
        var r := PlaceFrom(draws, num, minDist, attempts + 1, acc + [c]);
        assert r[..|acc|] == (r[..|acc| + 1])[..|acc|];
      }
    }
  }

  /** Accepted centres stay pairwise at least `minDist` apart. */
  lemma {:induction false} PlaceFromSeparated(draws: seq<Candidate>, num: int, minDist: int, attempts: nat, acc: seq<Candidate>)
    requires attempts <= MaxAttempts <= |draws|
    requires Separated(acc, minDist)
    ensures Separated(PlaceFrom(draws, num, minDist, attempts, acc), minDist)
    decreases MaxAttempts - attempts
  {
    if |acc| < num && attempts < MaxAttempts {
      var c := draws[attempts];
      if Overlaps(c, acc, minDist) {
        PlaceFromSeparated(draws, num, minDist, attempts + 1, acc);
      } else {
        SeparatedAppend(acc, c, minDist);
        PlaceFromSeparated(draws, num, minDist, attempts + 1, acc + [c]);
      }
    }
  }

  /** Only draws made by attempts `attempts` .. `MaxAttempts - 1` are accepted. */
  lemma {:induction false} PlaceFromDrawn(draws: seq<Candidate>, num: int, minDist: int, attempts: nat, acc: seq<Candidate>)
    requires attempts <= MaxAttempts <= |draws|
    ensures forall c :: c in PlaceFrom(draws, num, minDist, attempts, acc) ==>
      c in acc || c in draws[attempts..MaxAttempts]
    decreases MaxAttempts - attempts
  {
    if |acc| < num && attempts < MaxAttempts {
      var c := draws[attempts];
      assert draws[attempts..MaxAttempts] == [c] + draws[attempts + 1..MaxAttempts];
      if Overlaps(c, acc, minDist) {
        PlaceFromDrawn(draws, num, minDist, attempts + 1, acc);
      } else {
        PlaceFromDrawn(draws, num, minDist, attempts + 1, acc + [c]);
      }
    }
  }

  lemma OverlapsPrefix(c: Candidate, acc: seq<Candidate>, r: seq<Candidate>, minDist: int)
    requires |acc| <= |r| && r[..|acc|] == acc && Overlaps(c, acc, minDist)
    ensures Overlaps(c, r, minDist)
  {
    var i :| 0 <= i < |acc| && SqDist(c.x, c.y, acc[i].x, acc[i].y) < minDist * minDist;
    assert r[i] == acc[i];
  }

  /** The converse of PlaceFromSeparated: when the loop ends short of
      `num`, it has used up its attempts, and every draw it saw from
      `attempts` on was either accepted or overlaps an accepted centre. */
  lemma {:induction false} PlaceFromMaximal(draws: seq<Candidate>, num: int, minDist: int, attempts: nat, acc: seq<Candidate>)
    requires attempts <= MaxAttempts <= |draws|
    requires |acc| <= num
    ensures var r := PlaceFrom(draws, num, minDist, attempts, acc);
      |r| < num ==> forall i :: attempts <= i < MaxAttempts ==> draws[i] in r || Overlaps(draws[i], r, minDist)
    decreases MaxAttempts - attempts
  {
    if |acc| < num && attempts < MaxAttempts {
      var c := draws[attempts];
      var r := PlaceFrom(draws, num, minDist, attempts, acc);
      if Overlaps(c, acc, minDist) {
        PlaceFromMaximal(draws, num, minDist, attempts + 1, acc);
        PlaceFromGrows(draws, num, minDist, attempts + 1, acc);
        OverlapsPrefix(c, acc, r, minDist);
      } else {
        PlaceFromMaximal(draws, num, minDist, attempts + 1, acc + [c]);
        PlaceFromGrows(draws, num, minDist, attempts + 1, acc + [c]);
        assert r[..|acc| + 1][|acc|] == c;
      }
    }
  }

  /** No draw after the 200th is ever looked at. */
  lemma {:induction false} PlaceFromUsesFirstAttempts(draws: seq<Candidate>, num: int, minDist: int, attempts: nat, acc: seq<Candidate>)
    requires attempts <= MaxAttempts <= |draws|
    ensures PlaceFrom(draws, num, minDist, attempts, acc)
         == PlaceFrom(draws[..MaxAttempts], num, minDist, attempts, acc)
    decreases MaxAttempts - attempts
  {
    if |acc| < num && attempts < MaxAttempts {
      var c := draws[attempts];
      assert draws[..MaxAttempts][attempts] == c;
      PlaceFromUsesFirstAttempts(draws, num, minDist, attempts + 1, acc);
      PlaceFromUsesFirstAttempts(draws, num, minDist, attempts + 1, acc + [c]);
    }
  }

  lemma InRangeSlice(draws: seq<Candidate>, lo: nat, hi: nat, c: Candidate)
    requires DrawsInRange(draws) && lo <= hi <= |draws| && c in draws[lo..hi]
    ensures InCanvas(c)
  {
    var k :| lo <= k < hi && draws[k] == c;
  }

  /** The first draw is always accepted. */
  lemma PlacementUnfold(level: int, draws: seq<Candidate>)
    requires level >= 1 && MaxAttempts <= |draws|
    ensures Placement(level, draws)
         == PlaceFrom(draws, NumCircles(level), MinDistance(level), 1, [draws[0]])
  {
    var num, md := NumCircles(level), MinDistance(level);
    var c := draws[0];
    assert !Overlaps(c, [], md);
    assert [] + [c] == [c];
  }

  /** Every target of a level is one of its first 200 draws. */
  lemma PlacementDrawn(level: int, draws: seq<Candidate>)
    requires level >= 1 && MaxAttempts <= |draws|
    ensures forall c :: c in Placement(level, draws) ==> c in draws[..MaxAttempts]
  {
    var num, md := NumCircles(level), MinDistance(level);
    var c := draws[0];
    PlacementUnfold(level, draws);
    PlaceFromDrawn(draws, num, md, 1, [c]);
    assert draws[..MaxAttempts][0] == c;
    assert draws[1..MaxAttempts] == draws[..MaxAttempts][1..];
  }

  /** With an in-range random source, every target lies inside the canvas ranges. */
  lemma PlacementInCanvas(level: int, draws: seq<Candidate>)
    requires level >= 1 && MaxAttempts <= |draws| && DrawsInRange(draws)
    ensures var r := Placement(level, draws);
      forall i :: 0 <= i < |r| ==> InCanvas(r[i])
  {
    var r := Placement(level, draws);
    PlacementDrawn(level, draws);
    forall i | 0 <= i < |r|
      ensures InCanvas(r[i])
    {
      assert r[i] in r;
      InRangeSlice(draws, 0, MaxAttempts, r[i]);
    }
  }

  /** A level's placement is never empty and starts with the first draw. */
  lemma PlacementFirst(level: int, draws: seq<Candidate>)
    requires level >= 1 && MaxAttempts <= |draws|
    ensures var r := Placement(level, draws);
      1 <= |r| <= NumCircles(level) && r[0] == draws[0] && Separated(r, MinDistance(level))
  {
    var num, md := NumCircles(level), MinDistance(level);
    var c := draws[0];
    PlacementUnfold(level, draws);
    PlaceFromGrows(draws, num, md, 1, [c]);
    PlaceFromSeparated(draws, num, md, 1, [c]);
    var r := PlaceFrom(draws, num, md, 1, [c]);
    assert r[..1] == [c];
    assert r[0] == r[..1][0];
  }

  /** A level comes out short of NumCircles(level) targets only when all
      200 attempts were spent, each on a draw that was accepted or that
      overlaps an accepted centre. */
  lemma PlacementMaximal(level: int, draws: seq<Candidate>)
    requires level >= 1 && MaxAttempts <= |draws|
    ensures var r := Placement(level, draws);
      |r| < NumCircles(level) ==>
        forall i :: 0 <= i < MaxAttempts ==> draws[i] in r || Overlaps(draws[i], r, MinDistance(level))
  {
    PlaceFromMaximal(draws, NumCircles(level), MinDistance(level), 0, []);
  }

  /** What level building guarantees of the targets it places. */
  lemma PlacementProperties(level: int, draws: seq<Candidate>)
    requires level >= 1 && MaxAttempts <= |draws|
    ensures var r := Placement(level, draws);
      && 1 <= |r| <= NumCircles(level)
      && r[0] == draws[0]
      && Separated(r, MinDistance(level))
      && (forall c :: c in r ==> c in draws[..MaxAttempts])
      && (DrawsInRange(draws) ==> forall i :: 0 <= i < |r| ==> InCanvas(r[i]))
      && r == Placement(level, draws[..MaxAttempts])
      && (|r| < NumCircles(level) ==>
            forall i :: 0 <= i < MaxAttempts ==> draws[i] in r || Overlaps(draws[i], r, MinDistance(level)))
  {
    PlacementFirst(level, draws);
    PlacementMaximal(level, draws);
    PlacementDrawn(level, draws);
    if DrawsInRange(draws) {
      PlacementInCanvas(level, draws);
    }
    PlaceFromUsesFirstAttempts(draws, NumCircles(level), MinDistance(level), 0, []);
  }
}
