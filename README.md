# autoMontage: tile planning and focus recovery

This project models the computational core of `autoMontage.py`, a script that lets an
SEM record a montage of tiles. It proves properties of the model. The core has two parts:

- **`computeCapturePositions`**: the montage planner (`capture_positions.dfy`, module
  `CapturePositions`).
  - It cuts the requested height and width down to whole multiples of the effective
    (overlap-reduced) tile step, using Python's floored `%`.
  - It counts the tiles along each axis.
  - It lists the stage positions in serpentine order: even rows left to right, odd rows
    right to left.
  - The function is modelled as a method with the source's nested loops. It is proved
    equal to `Serpentine`, an independent row-by-row specification.
  - Lemmas give the closed form of every cell, the step between consecutive positions,
    the row reversal and the coverage bounds.
- **`recursiveAutofocus`**: the bounded focus-recovery procedure (`autofocus.dfy`,
  module `Autofocus`).
  - The instrument is a class `Microscope`. Its fields are stage X and Y, coarse focus,
    the number of autofocus runs, and a log of the state-changing commands it has
    received.
  - What autofocus settles on, and the working distance the instrument reports, come
    from an `Oracle` value.
  - The recursive method is proved to issue exactly the commands of the function
    `Trace`. It leaves the instrument in the state those commands produce, and Y is
    untouched.
  - Lemmas about `Trace` state:
    - how many times autofocus runs (at most six);
    - that every `SetFocus` restores the entry focus;
    - the final stage position, focus and run count in closed form;
    - the LIFO order of the stage moves: all probe moves outward, then every failing
      frame moving back to its own entry X, deepest first.

Behaviour of the code that a reader might not expect, which the model keeps:

- **Focus after a fully failed chain.** Every failing frame restores the entry focus
  before it recurses (autoMontage.py:225). So a chain in which every attempt fails ends
  at the entry focus, not at the last autofocus result (`AllAttemptsRejected`, `Outcome`).
- **Degenerate grid.** A grid with zero rows or columns gives an empty list; no error is
  raised.
  - The only error the model keeps is Python's `ZeroDivisionError` from `%` by a zero
    effective step (autoMontage.py:173-174).
  - A negative step is not rejected: it follows Python's floored arithmetic.
- **Return value of the recovery.** `recursiveAutofocus` returns `None` on every path:
  the bare `return` at autoMontage.py:201 and the end of the body at line 230. The
  model's method has no out-parameter.

## Model

| member | source | states |
|---|---|---|
| CapturePositions.FloorMod | autoMontage.py:173-174 | Python's `%`: the remainder has the divisor's sign and is smaller than the divisor in magnitude; dividend = floored quotient × divisor + remainder |
| CapturePositions.Truncated | autoMontage.py:173-174 | the adjusted span is a whole multiple of the step; for a positive step it does not exceed the original span and lies less than one step below it; the mirror bound holds for a negative step |
| CapturePositions.TileCount | autoMontage.py:177-178 | the tile count is the floored quotient of span by step; count × step is the truncated span; it equals span / step for positive steps and is non-negative for a non-negative span |
| CapturePositions.Serpentine | autoMontage.py:183-193 | the scan path has rows × cols positions |
| CapturePositions.ComputeCapturePositions | autoMontage.py:163-195 | fails exactly when an effective step is zero; otherwise returns exactly the serpentine path with max(0, count) rows and columns (`range` of a negative count is empty), of length rows × cols |
| CapturePositions.SerpentineCell | autoMontage.py:183-193 | the place `c` of row `r` is at index `r*cols+c` and lies at `y0 + r*stepH`, in column `c` for an even row or `cols-1-c` for an odd row |
| CapturePositions.RowOrder | autoMontage.py:184-193 | the slice of row `r` is exactly that row's positions in visiting order |
| CapturePositions.OddRowReversesEvenRow | autoMontage.py:189-193 | an odd row visits the x coordinates of the row before it in reverse, one row step lower in y |
| CapturePositions.ConsecutiveStep | autoMontage.py:183-193 | consecutive positions differ by ±stepW in x within a row (sign by row parity) and by +stepH in y with equal x across a row boundary |
| CapturePositions.StepWithinRow | autoMontage.py:185-193 | the next position in the same row has the same y and x moved by +stepW (even row) or -stepW (odd row) |
| CapturePositions.StepAcrossRows | autoMontage.py:183-193 | the first position of the next row has the same x as the last of the current row and y one step further |
| CapturePositions.FirstPosition | autoMontage.py:183-188 | a non-empty scan starts at the start coordinates |
| CapturePositions.PlannedGrid | autoMontage.py:173-195 | for positive steps and spans: the counts are span / step, the grid covers no more than the span and leaves less than one step uncovered per axis, and the first position is the start |
| CapturePositions.ExampleGrid | autoMontage.py:173-195 | 6400 × 9000 with step 800 gives 8 rows of 11 tiles, 88 positions, and the first position of the second (reversed) row is at (8000, 800) |
| Autofocus.Abs | autoMontage.py:222 | `abs` of the working-distance jump is its magnitude |
| Autofocus.Fails | autoMontage.py:222 | an attempt is rejected exactly when the working distance after autofocus differs from the one before by more than the threshold, in either direction |
| Autofocus.Step | autoMontage.py:207-225 | `RunStageMove(X=…)` changes only X; autofocus sets the focus the oracle gives for this run and counts one run; `SetFocus(Coarse=…)` changes only the focus |
| Autofocus.ApplyAppend | autoMontage.py:203-230 | replaying two command lists one after the other is replaying their concatenation |
| Autofocus.ApplyRuns | autoMontage.py:216 | replaying commands adds exactly one to the run count per autofocus command among them |
| Autofocus.Trace | autoMontage.py:197-230 | a call past the depth bound (`count > 5`) issues nothing; otherwise it opens with the probe move to `xStart + offset` (only when the offset is positive) followed by one autofocus run |
| Autofocus.TraceFrame | autoMontage.py:203-230 | unfolding lemma for `Trace`: an accepted attempt issues only its probe move and autofocus run; a rejected one then restores the entry focus, issues the deeper call's commands and moves back to its entry X |
| Autofocus.Failures | autoMontage.py:200-227 | the length of the run of rejected attempts from a depth on: every one of them fails, there are at most 6 - count, and if the depth bound did not stop the chain the next attempt is accepted |
| Autofocus.AutofocusRuns | autoMontage.py:200-216 | autofocus runs once per attempted frame (failures plus one accepted attempt, if any), never more than 6 - count times |
| Autofocus.FirstAttemptAccepted | autoMontage.py:203-222 | an accepted first attempt at offset 0 issues one autofocus command and nothing else |
| Autofocus.FocusRestored | autoMontage.py:210-225 | every `SetFocus` a chain issues sets the coarse focus the chain started with |
| Autofocus.FinalStage | autoMontage.py:197-230 | replaying a chain's commands ends at `Outcome`: past the depth bound nothing changes; otherwise at the entry X if the first attempt failed, else at the probe X when the offset is positive and where it was otherwise; with the accepted autofocus focus, or the entry focus if all attempts failed; with one run per attempt |
| Autofocus.FinalStageRejected | autoMontage.py:222-230 | the same for a chain whose first attempt fails |
| Autofocus.TopLevelEndsAtStart | autoMontage.py:197-230 | a top-level call (default `offset=0`, `count=0`, entered at the current X) leaves the stage at the X it started from, whichever attempts fail |
| Autofocus.ChainClosedForm | autoMontage.py:203-230 | the frame-by-frame move list equals all probe moves in depth order followed by all restore moves, deepest frame first |
| Autofocus.MovesFollowChain | autoMontage.py:203-230 | the stage moves a call issues follow its chain of rejected and accepted attempts frame by frame |
| Autofocus.MoveOrder | autoMontage.py:203-230 | rollback order: the stage-move targets are the probe X of each attempted frame outward, then the entry X of each failing frame inward (LIFO) |
| Autofocus.AllAttemptsRejected | autoMontage.py:197-230 | a top-level call in which all six attempts fail runs autofocus six times, probes at xStart + d·step for d = 1..5 (none if the step is not positive), moves back through xStart + 4·step … xStart and xStart, and ends at xStart with the entry focus |
| Autofocus.RejectedFrame | autoMontage.py:222-230 | the log and state a rejecting frame builds step by step equal its `Trace` and its replay |
| Autofocus.AcceptedFrame | autoMontage.py:203-222 | an accepting frame's commands are its probe move and one autofocus run |
| Autofocus.Microscope.RunStageMoveX | autoMontage.py:207 | `RunStageMove(X=…)` moves only X and logs the move |
| Autofocus.Microscope.RunAutoAfc | autoMontage.py:216 | autofocus sets the focus the oracle gives for this run, counts the run and logs it |
| Autofocus.Microscope.SetFocus | autoMontage.py:225 | `SetFocus(Coarse=…)` sets only the focus and logs it |
| Autofocus.Microscope.GetFocus | autoMontage.py:210-211 | returns the current coarse focus |
| Autofocus.Microscope.GetWorkingDistance | autoMontage.py:212-213 | returns the working distance at the current focus |
| Autofocus.Microscope.RecursiveAutofocus | autoMontage.py:197-230 | the call appends exactly `Trace`'s commands to the log, leaves the instrument in the state replaying them gives, and never changes Y |

## Left out

- The acquisition loop around the core is not modelled: magnification, high voltage,
  ABC and astigmatism, capture, file renaming with `shutil.move`, and the final return to
  the start. It is instrument I/O.
- `computeTileSize` is not modelled. It reads the frame size from the instrument and
  uses floating point.
- The effective steps `int(tile * (1 - overlap))` (autoMontage.py:169-170) and the
  recursion step `int(0.1 * tileWidth)` (autoMontage.py:227) are taken as given integers.
  They are floating-point computations truncated to int.
- `int(totalHeight / effectiveTileHeight)` is modelled as exact integer division. The
  truncated span is an exact multiple of the step, so only float rounding of very large
  spans could differ, and floats are not modelled.
- Coordinates, thresholds and working distances are integers. The source's `int(x)`
  conversions at autoMontage.py:188 and 193 are then the identity.
- The vendor interface is an `Oracle`: the focus the n-th autofocus run settles on, and
  the working distance as a function of the coarse focus. Reading the working distance
  is assumed to depend only on the current focus. Failures of instrument calls are not
  modelled.
- The queries `GetFocus` and `GetWorkingDistance` change
  nothing and are not recorded in the command log.
- The call site passes `maxRecursions=MAX_AFC_RECURSIONS` (autoMontage.py:100), which
  `recursiveAutofocus` does not accept. The model follows the definition, whose depth
  bound is the literal `count > 5`.
