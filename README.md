# IndicatorDots: the PIN indicator's dot-state policy in Dafny

This project models `IndicatorDots`, the row of dots that PinLockView shows above its
keypad. The keypad reports the current input length through `updateDot(length)`. The widget
keeps three pieces of state:

- an ordered row of child dots, each showing the filled or the empty template;
- the counter `mPreviousLength`;
- a display mode: FIXED = 0, FILL = 1 or FILL_WITH_ANIMATION = 2.

In FIXED mode the row is built once with `pinLength` slots, and `updateDot` recolours one
slot, or all of them on a reset. In every other mode `updateDot` inserts a filled dot,
removes one, or clears the row. `setPinLength`, `setIndicatorType` and `setPrimaryColor`
discard the row and rebuild it through `initView`.

There are two modules:

- `DotPolicy` (dot_policy.dfy) states the policy on values. A `View` is the row
  (`seq<bool>`, where `true` means filled) together with the counter. `Init` is `initView`.
  `Update` is `updateDot`. `Run` is a sequence of `updateDot` calls. The module also proves
  what these functions mean.
- `IndicatorWidget` (indicator_dots.dfy) holds the class `IndicatorDots`. Its fields are the
  Java fields, and its methods update them in place. Each method is proved to leave exactly
  the state that `Init` or `Update` gives.

The source never checks an index. Only these calls fail:

- in FIXED mode, a slot index at or past the last slot: `getChildAt` returns null and
  `fillDot`/`emptyDot` then throw a null-pointer exception;
- in the other modes, an increase whose index `length - 1` is past the end of the row
  (`addView` throws);
- in the other modes, a decrease or repeat with `length` at or past the end of the row
  (`removeViewAt` throws).

`InRange` states exactly the calls that do not fail. It is `UpdateDot`'s precondition, and
`Run` yields `None` where a call would fail. Every other call succeeds, multi-step jumps
included. Such a jump quietly leaves the counter out of step with the row
(`FixedJumpLeavesStaleDot`, `FixedUpwardJumpFillsOneSlot`, `FillJumpLeavesStaleDot`).

The mode test in the source is `mIndicatorType == 0`. So every value other than 0, not only
1 and 2, takes the fill branch, and the model keeps that.

## Model

| member | source | states |
|---|---|---|
| `DotPolicy.Update` | pinlockview/src/main/java/com/andrognito/pinlockview/IndicatorDots.java:114-152 | The counter becomes the new length, or 0 on a reset. FIXED keeps the row size. A FIXED increase fills slot length-1 and changes no other slot. A FIXED decrease or repeat empties slot `length` and changes no other slot. A FIXED reset empties every slot. In the other modes an increase inserts one filled dot at length-1 and keeps the dots before and after it in order, so the multiset gains exactly one `true`. A decrease removes the dot at `length` and keeps the rest in order. A reset leaves the row empty. |
| `DotPolicy.Init` | pinlockview/src/main/java/com/andrognito/pinlockview/IndicatorDots.java:84-101 | In FIXED mode it appends max(pinLength, 0) empty dots after the existing row. In any other mode the row is unchanged. |
| `DotPolicy.Blank` | pinlockview/src/main/java/com/andrognito/pinlockview/IndicatorDots.java:87-97 | The loop makes n empty dots, or none when n <= 0. |
| `DotPolicy.InsertAt` | pinlockview/src/main/java/com/andrognito/pinlockview/IndicatorDots.java:142 | `addView(dot, i)` puts the dot at i, shifts the later dots right in order, and adds the dot to the multiset. |
| `DotPolicy.RemoveAt` | pinlockview/src/main/java/com/andrognito/pinlockview/IndicatorDots.java:144 | `removeViewAt(i)` removes exactly that dot, shifts the later dots left in order, and removes that dot from the multiset. |
| `DotPolicy.CountFilled` | pinlockview/src/main/java/com/andrognito/pinlockview/IndicatorDots.java:49 | The number of filled dots is at most the row length. It is 0 exactly when no dot is filled, and the full length exactly when every dot is filled. |
| `DotPolicy.Run` | pinlockview/src/main/java/com/andrognito/pinlockview/IndicatorDots.java:114-152 | For successive `updateDot` calls, the counter ends at the last length (or 0), and FIXED never changes the row size. |
| `DotPolicy.CountFilledIsMultiplicity` | pinlockview/src/main/java/com/andrognito/pinlockview/IndicatorDots.java:49 | The filled count is the number of `true` entries in the row's multiset. |
| `DotPolicy.CountFilledPrefix` | pinlockview/src/main/java/com/andrognito/pinlockview/IndicatorDots.java:49 | A row whose first p dots are filled and whose other dots are empty has exactly p filled dots. |
| `DotPolicy.ConsistentCount` | pinlockview/src/main/java/com/andrognito/pinlockview/IndicatorDots.java:49 | In a consistent state the counter equals the number of filled dots. In the non-FIXED modes it also equals the number of dots. |
| `DotPolicy.StepKeepsConsistent` | pinlockview/src/main/java/com/andrognito/pinlockview/IndicatorDots.java:114-152 | From a consistent state, a single-step call never indexes outside the row (in FIXED mode, up to the slot count) and keeps the state consistent. |
| `DotPolicy.SingleStepRunConsistent` | pinlockview/src/main/java/com/andrognito/pinlockview/IndicatorDots.java:114-152 | A whole run of single-step calls from a consistent state never fails and ends consistent, with the counter equal to the number of filled dots. |
| `DotPolicy.FreshConsistent` | pinlockview/src/main/java/com/andrognito/pinlockview/IndicatorDots.java:84-101 | A freshly built row with counter 0 is consistent in every mode: all FIXED slots are empty, and every other mode has no dots. |
| `DotPolicy.FreshWidgetTracksLength` | pinlockview/src/main/java/com/andrognito/pinlockview/IndicatorDots.java:114-152 | From a fresh widget, single-step calls keep the counter equal to the number of filled dots. In the non-FIXED modes they also keep it equal to the row length. |
| `DotPolicy.RampIsSingleSteps` | pinlockview/src/main/java/com/andrognito/pinlockview/IndicatorDots.java:114 | Typing digits one at a time is a sequence of single steps. |
| `DotPolicy.FixedIncrementsFillPrefix` | pinlockview/src/main/java/com/andrognito/pinlockview/IndicatorDots.java:115-122 | With n FIXED slots, after k increments from 0 (k <= n), exactly the first k slots are filled and the counter is k. |
| `DotPolicy.NonFixedModesAgree` | pinlockview/src/main/java/com/andrognito/pinlockview/IndicatorDots.java:131-151 | Any two non-FIXED modes (FILL, FILL_WITH_ANIMATION, …) accept the same calls and produce the same row and counter. |
| `DotPolicy.NonFixedRunsAgree` | pinlockview/src/main/java/com/andrognito/pinlockview/IndicatorDots.java:131-151 | The same agreement holds for whole call sequences. |
| `DotPolicy.FixedJumpLeavesStaleDot` | pinlockview/src/main/java/com/andrognito/pinlockview/IndicatorDots.java:119-122 | A FIXED decrease from 3 to 1 empties only slot 1. Slot 2 stays filled, so 2 dots are filled against a counter of 1. |
| `DotPolicy.FixedUpwardJumpFillsOneSlot` | pinlockview/src/main/java/com/andrognito/pinlockview/IndicatorDots.java:117-118 | A FIXED jump from 0 to 3 on four slots is in range and fills slot 2 alone, so the state is no longer consistent. |
| `DotPolicy.FillJumpLeavesStaleDot` | pinlockview/src/main/java/com/andrognito/pinlockview/IndicatorDots.java:143-146 | A FILL decrease from 3 to 1 is in range but removes one dot only, leaving 2 filled dots against a counter of 1. |
| `DotPolicy.FillJumpOutOfRange` | pinlockview/src/main/java/com/andrognito/pinlockview/IndicatorDots.java:142-144 | In FILL mode, jumping from 0 to 2 on an empty row and repeating length 2 on a 2-dot row fall outside the range the source can index. Repeating length 2 on a 3-dot row stays inside it. |
| `DotPolicy.RebuildConsistentOnlyAtZero` | pinlockview/src/main/java/com/andrognito/pinlockview/IndicatorDots.java:166-191 | The setters' rebuild keeps the counter, so the rebuilt widget is consistent exactly when the counter is 0. |
| `DotPolicy.FillScenario` | pinlockview/src/main/java/com/andrognito/pinlockview/IndicatorDots.java:131-151 | In FILL mode, `updateDot(1)`, then `(2)`, then `(0)` give rows of 1, 2 and 0 dots. |
| `IndicatorWidget.IndicatorDots.constructor` | pinlockview/src/main/java/com/andrognito/pinlockview/IndicatorDots.java:59-82 | It records the mode and colour it is given, sets pin length 4 and counter 0, and sets the row to `Init` of an empty row. |
| `IndicatorWidget.IndicatorDots.InitView` | pinlockview/src/main/java/com/andrognito/pinlockview/IndicatorDots.java:84-101 | Its loop leaves the row equal to `Init(mode, pinLength, old row)` and changes no other field. |
| `IndicatorWidget.IndicatorDots.FillDot` | pinlockview/src/main/java/com/andrognito/pinlockview/IndicatorDots.java:158-160 | Child i becomes filled, and nothing else changes. |
| `IndicatorWidget.IndicatorDots.EmptyDot` | pinlockview/src/main/java/com/andrognito/pinlockview/IndicatorDots.java:154-156 | Child i becomes empty, and nothing else changes. |
| `IndicatorWidget.IndicatorDots.UpdateDot` | pinlockview/src/main/java/com/andrognito/pinlockview/IndicatorDots.java:114-152 | When called within the source's index range, it leaves the row and counter equal to `Update` of the old ones. It changes only those two fields. |
| `IndicatorWidget.IndicatorDots.GetPinLength` | pinlockview/src/main/java/com/andrognito/pinlockview/IndicatorDots.java:162-164 | It returns the pin length. |
| `IndicatorWidget.IndicatorDots.SetPinLength` | pinlockview/src/main/java/com/andrognito/pinlockview/IndicatorDots.java:166-170 | It sets the pin length and replaces the row with `Init` of an empty row, discarding the earlier fill state. The counter and the mode are kept. |
| `IndicatorWidget.IndicatorDots.GetIndicatorType` | pinlockview/src/main/java/com/andrognito/pinlockview/IndicatorDots.java:172-176 | It returns the mode. |
| `IndicatorWidget.IndicatorDots.SetIndicatorType` | pinlockview/src/main/java/com/andrognito/pinlockview/IndicatorDots.java:178-182 | It sets the mode and rebuilds the row for that mode from nothing. The counter and the pin length are kept. |
| `IndicatorWidget.IndicatorDots.SetPrimaryColor` | pinlockview/src/main/java/com/andrognito/pinlockview/IndicatorDots.java:184-191 | It records the colour and rebuilds the row from nothing. The counter, mode and pin length are kept. |
| `IndicatorWidget.FixedSession` | pinlockview/src/main/java/com/andrognito/pinlockview/IndicatorDots.java:114-130 | On a FIXED widget with 4 slots, `updateDot(1)`, `(2)`, `(1)`, `(0)` give the rows [F,_,_,_], [F,F,_,_], [F,_,_,_], [_,_,_,_]. |
| `IndicatorWidget.SwitchSession` | pinlockview/src/main/java/com/andrognito/pinlockview/IndicatorDots.java:178-182 | A FILL widget at length 2 that is switched to FIXED shows 4 empty slots, while its counter stays 2. |

## Left out

- Style-attribute parsing and resource loading in the constructor (dot diameter, spacing, the drawable resources, the default colour): these are platform resource I/O. The indicator type and the colour are constructor parameters instead. The pin-length attribute read is commented out in the source, so the constructor always starts at the default of 4.
- Drawables and colour rendering: `setStroke`/`setColor` on the templates in `setPrimaryColor`, and which drawable an `ImageView` shows. A dot is only "filled" or "empty".
- The `LayoutTransition` that `initView` installs in mode 2: it only animates insertions and removals. It is never removed when the mode changes later, and that has no effect on the row or the counter.
- Layout parameters, margins, `setLayoutDirection`, and the `onAttachedToWindow` height fix: these belong to the Android layout lifecycle.
- The keypad (`PinLockView`) that calls `updateDot` is not part of this model. The claim that it reports only single steps is a hypothesis of the lemmas (`SingleSteps`), not something proved.
- `IndicatorWidget.IndicatorDots.UpdateDot`: calls outside `InRange` are excluded by its precondition. In the source they throw (a null child in FIXED mode, an index out of bounds otherwise). `DotPolicy.Run` models that failure as `None`.
