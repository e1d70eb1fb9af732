# Touch-test game: a verified model of the level and gesture engine

This project models the game logic of `TouchTestGame`, a small reflex
trainer. The player presses and releases circular targets on a canvas.
Each target asks for a short tap or a long hold. Levels get denser and the
long-press threshold rises as the player advances.

The model is one Dafny class, `Session.GameSession`, holding the game's state:

- the circle list, each circle with its centre, gesture, press time and `done` flag;
- the current level and the long-press threshold;
- the trail buffers, one list of dot ids per input source;
- a counter of canvas item ids;
- a counter of rebuilds that have been scheduled but not yet run.

Its methods are the event handlers. The pure parts are functions in their own modules:

- `Levels`: the level formulas and a reference definition of the placement loop;
- `Gestures`: the hit test, the short/long rule and a reference definition of the scan over the circle list;
- `Trails`: the bounded FIFO.

Each method is proved against these functions. The lemmas state what the
functions guarantee.

Where the environment enters, it is a parameter:

- **Randomness.** `start_level` takes a sequence of at least 200 draws `(x, y, action)`, each inside [100,700]×[100,500]. The builder uses a draw's action only if it accepts the draw's centre.
- **Clock.** A press or release takes the clock reading for its event, in seconds, as a `real`.
- **Timer.** `root.after(1000, start_level)` becomes `pendingRebuilds += 1`. The callback firing is `FireRebuild`.
- **Canvas.** Canvas item ids are integers from an abstract counter that starts at 1. The items a press's pulse animation creates take no id from it. A circle takes two ids, one for its ring and one for its label. A trail dot takes one. The green/red repaint of a classified ring is an output of the scan (`outlines[k]`), not state.

Where the code differs from what a reader might expect of such a game (one target classified per release, a one-shot press time, the level raised only after the delay), the model follows the code:

- The release scan has no `break`. A press or release acts on every not-done circle containing the point, not only the first. Circles can overlap whenever the minimum distance is below 80.
- A second press on a target overwrites its press time. The time is not kept from the first press only.
- `check_level_complete` raises the level at once, on the release that completes it. Only the rebuild is delayed. Every further release before the rebuild raises the level again and schedules another rebuild.
- A release over a target that was never pressed raises a `TypeError`. This happens when the subtraction at line 125 meets `None`. Circles earlier in the list stay resolved, and the level check is skipped. The model returns this as `raised`.

## Model

| member | source | states |
|---|---|---|
| Levels.LevelParameterBounds | PythonApplication11.py:81-106 | From level 1 upward a level asks for 5..10 targets at minimum distance 50..78. The threshold is at least 0.8 and grows by exactly 0.1 per level. |
| Levels.LevelParametersMonotone | PythonApplication11.py:81-106 | A higher level asks for no fewer targets, a minimum distance no larger and a threshold no lower. |
| Levels.PlaceFromGrows | PythonApplication11.py:87-103 | The placement loop only appends to the accepted centres and never accepts more than the requested count. |
| Levels.PlaceFromSeparated | PythonApplication11.py:91-94 | A centre is accepted only when its squared distance to every accepted one is at least `min_distance²`, so accepted centres stay pairwise separated. |
| Levels.PlaceFromMaximal | PythonApplication11.py:87-103 | The converse of separation: if the loop ends with fewer than `num_circles` centres, every draw from the given attempt up to the 200th was accepted or overlaps an accepted centre. |
| Levels.PlaceFromDrawn | PythonApplication11.py:87-101 | The loop accepts only draws made by the attempts still remaining. |
| Levels.PlaceFromUsesFirstAttempts | PythonApplication11.py:87 | The loop's result depends only on the first 200 draws. At most 200 attempts are made. |
| Levels.PlacementUnfold | PythonApplication11.py:87-94 | The first draw of a level is always accepted, because nothing can overlap an empty list. |
| Levels.PlacementFirst | PythonApplication11.py:81-94 | A level's placement has between 1 and `min(4+L,10)` targets. The first is the first draw. All are pairwise at least `max(80-2L,50)` apart. |
| Levels.PlacementDrawn | PythonApplication11.py:87-101 | Every target of a level is one of its first 200 draws. |
| Levels.PlacementInCanvas | PythonApplication11.py:88-89 | With draws from the `randint` ranges, every target centre lies in [100,700]×[100,500]. |
| Levels.PlacementMaximal | PythonApplication11.py:84-103 | A level gets fewer than `min(4+L,10)` targets only if all 200 attempts were spent, each on a draw that was accepted or that lies closer than `max(80-2L,50)` to an accepted centre. |
| Levels.PlacementProperties | PythonApplication11.py:84-103 | A level's placement has between 1 and `min(4+L,10)` targets. The first one is the first draw. All are pairwise at least `max(80-2L,50)` apart. All are draws among the first 200, and all lie inside the canvas ranges. If fewer than `min(4+L,10)` were placed, each of the first 200 draws was accepted or overlaps an accepted centre. |
| Gestures.GesturesPartitionDurations | PythonApplication11.py:126-130 | Every duration is correct for exactly one gesture. A short gesture is correct iff the duration is below the threshold. |
| Gestures.ClassificationAtThreshold | PythonApplication11.py:126-130 | With threshold 0.8, a short tap of 0.79 s is correct and one of 0.80 s is not. For a long press, 0.80 is correct and 0.79 is not. |
| Gestures.Step | PythonApplication11.py:118-133 | One iteration of the scan keeps one circle and one outline entry per position. |
| Gestures.ScanUpTo | PythonApplication11.py:117-133 | The scan after n iterations keeps one circle and one outline entry per position. Its meaning is stated by ScanUpToEffect. |
| Gestures.ScanUpToEffect | PythonApplication11.py:116-133 | After n iterations the scan has raised iff the event is a release and some circle among the first n is not done, contains the point and has no press time. A circle is changed iff the scan reached it, the point hits it, it is not done and, on a release, it has a press time; such a circle is repainted (green or red) only on a release, never on a press. All other circles are unchanged and nothing else is repainted. |
| Gestures.PressStampsTargets | PythonApplication11.py:117-123 | A press never raises. It sets the press time, overwriting any earlier one, on exactly the not-done circles within radius 40 of the point (inclusive). It changes no `done` flag and repaints nothing. |
| Gestures.ReleaseResolvesTargets | PythonApplication11.py:117-133 | If every not-done circle under the point has a press time, a release does not raise. Every one of those circles becomes done and is painted green iff its gesture was correct for `release - press`. The others are unchanged. |
| Gestures.ReleaseRaisesAtUnpressed | PythonApplication11.py:117-125 | A release reaching a not-done, never-pressed circle under the point raises there. The targets before it in list order are already resolved and painted. That circle and all later ones are unchanged. |
| Gestures.ScanKeepsDoneAndPlace | PythonApplication11.py:117-131 | No event resets `done`, moves a circle or changes its gesture or id. A done circle is left exactly as it was. |
| Gestures.PressThenRelease | PythonApplication11.py:109-131 | A press at t0 followed by a release at t1 at the same point never raises. It resolves every target under the point, judged on `t1 - t0`, and leaves the other circles as they were. |
| Gestures.ReleaseCompletesLevel | PythonApplication11.py:114-137 | A release that does not raise leaves every circle done iff each circle was already done or lies under the release point. |
| Gestures.ScanOverFinishedLevel | PythonApplication11.py:117-118 | When all circles are done, a press or release scan changes nothing, repaints nothing and does not raise. |
| Trails.PushDotProperties | PythonApplication11.py:68-75 | After `draw_trail` the list has at most 20 dots and the new dot is last. Below the bound the dot is appended. At the bound exactly the oldest dot (index 0) is evicted. |
| Trails.Newest | PythonApplication11.py:73-74 | The newest-n suffix is no longer than n or than the list. |
| Trails.PushAllKeepsNewest | PythonApplication11.py:68-75 | Over any sequence of `draw_trail` calls on one source, the list is exactly the 20 most recent dots (all of them while fewer), oldest first. |
| Trails.PushDotKeepsTrailOk | PythonApplication11.py:71-75 | Pushing a freshly created dot keeps a trail within 20 dots, with ids strictly increasing in creation order and below the next free id. |
| Session.GameSession.constructor | PythonApplication11.py:22-47 | The session starts at level 1 with threshold 0.8, no trails and no pending rebuild. Its circles are the placement of level 1, with canvas ids from 1, and the next free canvas id is 1 + 2·(number of circles). |
| Session.GameSession.StartLevel | PythonApplication11.py:78-106 | Rebuilding replaces the circle list with the placement of the current level: fresh, in range, pairwise at least `max(80-2L,50)` apart, 1..`min(4+L,10)` of them. It sets the threshold to `0.8+(L-1)·0.1` and changes nothing else. |
| Session.BuiltCircles | PythonApplication11.py:84-103 | A circle list built from a level's placement has 1..`min(4+L,10)` circles. Each has no press time, is not done and lies inside the canvas ranges. The circles are pairwise at least `max(80-2L,50)` apart. |
| Session.GameSession.CheckCircle | PythonApplication11.py:116-133 | The loop leaves the circle list, the repaints and the raised flag exactly as ScanAll defines them from the old list and threshold. Nothing else changes. |
| Session.RaisedScanStays | PythonApplication11.py:125 | Once the scan has raised, later iterations change nothing. The loop stopping at the exception gives the full scan. |
| Session.GameSession.CheckLevelComplete | PythonApplication11.py:136-139 | This raises the level by exactly 1 and schedules one rebuild iff all circles are done. Otherwise nothing changes. Repeated calls while all are done keep raising the level. |
| Session.GameSession.MousePress | PythonApplication11.py:109-111 | A press stamps exactly the not-done circles under the point with its time. Everything else is unchanged. |
| Session.GameSession.MouseRelease | PythonApplication11.py:112-115 | A release performs the release scan. If the scan did not raise and all circles are then done, the level rises by 1 and a rebuild is scheduled. Otherwise level and schedule are unchanged. The threshold and trails are untouched. |
| Session.GameSession.FireRebuild | PythonApplication11.py:139 | The scheduled callback consumes one pending rebuild and rebuilds the current level: the circles are its placement with fresh canvas ids, the next free id advances by two per circle, and the threshold is `0.8+(L-1)·0.1`. |
| Session.GameSession.DrawTrail | PythonApplication11.py:68-75 | The source's list becomes PushDot of its old list (empty if unseen) with a fresh id. It stays within 20 dots, the new dot is last, and at the bound exactly the oldest is evicted. Every other source's list is unchanged. |

## Left out

- `animate_circle` (lines 142-158): the expanding pulse is a chain of `root.after` callbacks over float radii and colour values. None of it feeds back into game state. The canvas item it creates does not take an id from the model's counter.
- Canvas and widget calls (`create_oval`, `create_text`, `itemconfig`, `delete`, `label.config`) are rendering. Item ids are an abstract counter. The repaint colour is an output. `canvas.delete("all")` in `start_level` is not modelled: trails keep their dot ids across a rebuild, as the source's dictionary does.
- Trail colour and dot coordinates only reach the canvas, so `DrawTrail` takes just the source. `mouse_move` and `touch_move` are the callers with sources `Mouse` and `Touch(num)`. The source keys are the strings `"mouse"` and `"touch{num}"`, modelled as the datatype `Source`. Tk gives a `<B1-Motion>` event no button number (`event.num` is `"??"`), so in practice every drag shares the one key `"touch??"`; the model allows a trail per number, which covers that single key as `Touch` of one fixed number.
- `self.start_time` (line 110) is written and never read, so it is not a field of the model.
- MousePress: every `time.time()` call made while one press is handled is treated as the same instant `now`. The source reads the clock once per stamped circle.
- IEEE floating point: the threshold `0.8 + (L-1)*0.1` and the durations are exact `real`s. Bit-exact float rounding at the boundary is not claimed.
- Music (`load_and_play_music`, lines 50-61, started on a background thread at line 35) is audio I/O and concurrency.
- `pack_game` (lines 161-178) is subprocess, pip and PyInstaller work with message boxes.
- Randomness: a draw outside the `randint` ranges, or fewer than 200 draws, is excluded by `requires`. The random source never produces them.
