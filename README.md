# Solar-system simulator: the discrete core in Dafny

The simulator is a pygame program in `main.py`. The sun and the planets attract each other, and moons orbit their planet. The user can change the simulated time step with the arrow keys. The detail view focuses on one body: the left shift key returns to the sun, and a mouse click on a planet focuses that planet.

This project models the parts of that program that are discrete rather than floating-point physics:

- **Clock** (`clock.dfy`) is the time-step selector and the elapsed-time clock. It holds the 22 preset time steps and the selected preset index, and the left and right arrow keys move the index. Each frame, the time step is added to the elapsed time, and the elapsed time is broken down afresh into years, days, hours, minutes and seconds. A year has twelve 30-day months, so 360 days.
- **Bodies** (`bodies.dfy`) models the `Planet` class and its `Moon` subclass as one `Body` class. It keeps the name, the parent, the mass, the focus flag, the drawn trajectory (`orbit`) and the list of moon names. It covers the trajectory bookkeeping of `update_pos` and the moon listing of `find_moons`.
- **Focus** (`focus.dfy`) models the module-level `active` name together with every body's `active` flag. It covers `activate_planet`, the left-shift handler and the mouse-click handler.
- **Collision** (`collision.dfy`) models `collision`, the merge pass. When two distinct planets overlap, the heavier one absorbs the lighter one's mass and the lighter one is removed from the list.
  - The list is changed while it is being iterated over. The model reproduces this: both loops walk a running index over the list as it currently stands. So after a removal, the element that slides into the vacated slot is skipped.
  - Removal takes out the first element identical to the absorbed body, as `list.remove` does for objects without their own equality.
  - In `main.py` the call to `collision` is commented out (line 333). The model treats the merge as an operation on its own.

The merge proof keeps the current masses in a ghost table `m`. `Linked` ties that table to the heap, and `MergeInvariant` holds between iterations. `MergePass` is the outer `for planet in planets` loop, and `AbsorbInto` is the inner `for planet2 in planets` loop for one `planet`. Each merge step is proved on the table by `MergeStep`, and `MergeOutcome` restates the result on the bodies themselves. The ghost table `absorberMass` records what each absorber weighed at the moment it absorbed a body.

Two behaviours of the code shape the contracts:

- **Collision order.** The code removes bodies while scanning, so some pairs are never compared, and a body can be absorbed after it has absorbed others. `Collision.Collision` states what holds regardless of order. When nothing is removed, it also states that no ordered pair of distinct overlapping bodies had the first strictly heavier at the start.
- **Start-up focus.** At start-up the global focus name is `"sun"`, but no body has its flag set yet (main.py:15, main.py:48).

## Model

| member | source | states |
|---|---|---|
| Clock.PresetsStrictlyIncreasing | main.py:24-25 | The preset list has 22 entries in strictly increasing order. |
| Clock.Decompose | main.py:317-331 | The breakdown of any elapsed time, negative included, has days in [0,360), hours in [0,24), minutes and seconds in [0,60), and adds back up to the elapsed time. |
| Clock.DecomposeToSeconds | main.py:317-331 | The breakdown is the unique in-range one: decomposing the total of an in-range breakdown returns that breakdown. |
| Clock.DecomposeExample | main.py:317-331 | 90061 s is 0 years, 1 day, 1 hour, 1 minute, 1 second; -1 s is year -1, day 359, 23:59:59. |
| Clock.SimClock.constructor | main.py:14-26 | Start-up state: preset index 3, time step 1 (its preset), nothing elapsed, the breakdown all zero. |
| Clock.SimClock.KeyLeft | main.py:284-287 | At index 0 nothing changes; otherwise the index drops by one, the time step becomes that preset and strictly decreases; the index stays in range and the step equals its preset. |
| Clock.SimClock.KeyRight | main.py:288-291 | At the last index nothing changes; otherwise the index rises by one, the time step becomes that preset and strictly increases; the index stays in range and the step equals its preset. |
| Clock.SimClock.Tick | main.py:315-331 | Elapsed time grows by exactly the time step, and the stored breakdown is in range and adds back up to the new elapsed time. |
| Bodies.Body.constructor | main.py:33-48 | A new body has the given name, mass and parent (the parent of a moon is set at main.py:169-172), is not focused and has an empty trajectory. |
| Bodies.Body.UpdatePos | main.py:148-149 | One step appends exactly the newly projected point to the trajectory and keeps every earlier entry (a moon's step, main.py:206-207, does the same). |
| Bodies.Body.FindMoons | main.py:158-166 | The stored and returned list is MoonNames of the candidates: the names of the moons whose parent is this very body, in order, or the single sentinel "none"; never empty. |
| Bodies.MoonNames | main.py:158-166 | Never empty; the sentinel list exactly when no candidate has this parent, otherwise the in-order filtered names. |
| Bodies.MoonsOfConcat | main.py:160-162 | Scanning a list in two pieces gives the concatenation of the two results: the filter keeps list order. |
| Bodies.MoonsOfMembership | main.py:160-162 | A name is listed if and only if some candidate with this parent carries it. |
| Bodies.MoonsOfEmpty | main.py:160-164 | No more names than candidates, and the filtered list is empty if and only if no candidate has this parent. |
| Focus.FirstHit | main.py:298-300 | A hit is a valid position whose hitbox contains the point, with no earlier planet's hitbox containing it; no hit if and only if no planet's hitbox contains it. |
| Focus.DeactivateAll | main.py:293-294 | Every listed body's focus flag is cleared. Only the flags may change, so mass, trajectory and moon list stay as they were. |
| Focus.FocusState.constructor | main.py:15 | The global focus name starts as "sun". The sun body must carry the name "sun" (main.py:230), and the state is then valid: the sun's name is the one the click handler waits for. |
| Focus.FocusState.Activate | main.py:153-156 | The body's flag is set and the global focus name becomes its name. |
| Focus.FocusState.KeyLShift | main.py:292-295 | Afterwards the sun is the focused body: its flag is set, the global name is "sun", so clicks are honoured again (main.py:297), and every planet other than the sun has its flag cleared. Only the focus flags and the global name may change. |
| Focus.FocusState.Click | main.py:296-304 | While the sun is focused and some hitbox contains the point, the first such planet becomes the focused body and the only flagged planet; otherwise the global name and every flag are unchanged. Only the planets' focus flags and the global name may change. |
| Focus.FocusedIsExactlyOne | main.py:301-303 | When a focused body is among the planets, the set of flagged planets is exactly that body. |
| Collision.RemoveFirst | main.py:224 | Removal shortens the list by exactly one. |
| Collision.RemoveFirstMultiset | main.py:224 | Removal takes out exactly one copy of the absorbed body and keeps every other element with its count. |
| Collision.RemoveFirstMembers | main.py:224 | Nothing new appears in the list, and only the removed body can vanish from it. |
| Collision.RemoveFirstAt | main.py:224 | Removing the first occurrence of the element at a position with no earlier copy removes exactly that position. |
| Collision.SubseqRemoveFirst | main.py:224 | The list after a removal is a subsequence of the list before: survivors keep their order. |
| Collision.TotalUpdate | main.py:223 | Adding to the mass of a body listed once changes the list's total by exactly the added amount. |
| Collision.TotalRemoveAt | main.py:224 | Dropping a position lowers the total by that body's mass. |
| Collision.MergeSum | main.py:222-224 | In a list without repetitions, one merge (mass moved onto the absorber, absorbed body removed) keeps the total mass. |
| Collision.MergeStep | main.py:219-224 | One merge keeps the pass invariant: survivors form a subsequence of the input, and masses never drop. Every removed body has an overlapping, distinct absorber that was strictly heavier when it absorbed and now weighs at least that plus the absorbed mass. With no repetitions, the total mass is conserved and only absorbers have gained mass. |
| Collision.MergeStepAbsorbers | main.py:221-224 | After one merge, every removed body, the newly removed one included, still has its record: a distinct, overlapping absorber in the input that was strictly heavier when it absorbed and now weighs at least that plus the absorbed mass. |
| Collision.MergeStepDistinct | main.py:222-224 | For a list without repetitions, one merge keeps the list free of repetitions, keeps the total mass, removes the absorbed body entirely, and only absorbers differ from their starting mass. |
| Collision.NothingDueExtend | main.py:219-222 | When the pair just scanned is not due for a merge (same body, no overlap, or the first not strictly heavier), the range of pairs known to be not due grows by one. |
| Collision.NothingDueNextRow | main.py:217-218 | Once the inner scan has passed the end of the list, the known range covers the whole row and the scan moves on to the next body. |
| Collision.Absorb | main.py:222-224 | The absorber's mass grows by exactly the absorbed mass, the absorbed body's first occurrence is removed, the list shrinks by one, the absorber stays in the list, and the pass invariant is kept, recording the absorber's mass just before the merge. |
| Collision.AbsorbInto | main.py:218-224 | The inner scan for one body changes only that body's mass, never lengthens the list and keeps the pass invariant. When nothing is removed, the body was compared with every body of the list and none was due for a merge. |
| Collision.MergePass | main.py:217-224 | The outer loop ends with the pass invariant against the starting masses. When nothing is removed, the list and the masses are as at the start, and no ordered pair of distinct overlapping bodies had the first strictly heavier. |
| Collision.MergeOutcome | main.py:216-226 | At the end of a pass the invariant yields the result on the bodies themselves. The list does not grow and no mass is lost. Each absorber was strictly heavier than the body it took when it took it, and now weighs at least that plus the absorbed mass. A list without repetitions conserves its total. |
| Collision.Collision | main.py:216-226 | The returned list is a subsequence of the input and no longer. Masses never drop, and nothing but masses changes. Every removed body was absorbed by a different body of the input whose hitbox overlaps its own. That absorber was strictly heavier at the moment it absorbed, and it ends at least that heavy plus the absorbed mass. If nothing is removed, the list and all masses are unchanged, and no two distinct overlapping bodies had the first strictly heavier at the start. For a list without repetitions, the total mass is conserved and only absorbers gain mass. |
| Collision.MergeTwo | main.py:216-226 | Two distinct overlapping bodies, the first strictly heavier: the pass leaves exactly the first, and it carries the sum of both masses. |

## Left out

- Gravity, velocities, positions and the integration step (`attraction`, most of `update_pos`, `orbital_velocity`) are floating-point physics and are not modelled. `Body.UpdatePos` receives the already projected screen point.
- Hitboxes are pygame rectangles. Rectangle overlap and "rectangle contains point" are parameters of `Collision` and `Click`, and they do not change during one pass.
- Drawing, text rendering, the window, event polling and the frame clock are pygame I/O and are left out. So is the `draw` methods' use of the focus state.
- The per-frame loop at main.py:306-313 is not modelled as a whole. Its pieces are: `UpdatePos` for the trajectory, `FindMoons` for the moon list, and `Tick` for the clock.
- The initial bodies and their constants (main.py:229-267) are setup data and are left out.
- Masses are exact positive reals. Floating-point rounding of `planet.mass += planet2.mass` is not modelled.
- `Body.constructor` sets `moons` to the empty list. In the source the attribute only comes into being at the first `find_moons` call.
- `MoonNames` cannot tell a planet with no moons from one whose only moon is literally named "none", just as the source cannot.
- `Collision.Collision` conserves total mass only for a list without repetitions. With a repeated body, `RemoveFirst` may take out an earlier copy, and the sum over the list counts that body more than once.
- `Collision.Collision` does not state that each absorber remains in the list. It can be absorbed itself later in the same pass. The contract states instead that the absorber was in the input and overlaps. It also states that the absorber was strictly heavier when it absorbed, and ends at least that mass plus the absorbed one.
- `Collision.Collision` returns the surviving list as a new value. The source shrinks and returns the caller's list object in place, so aliasing of that list is not modelled.
- Secondaries whose parent planet is removed by a merge are not followed. The source leaves them pointing at the removed planet.
