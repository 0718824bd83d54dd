# Magnetar: a Dafny model of the shelf's interaction core

Magnetar is a shelf widget for a 3D environment. It is a vertical stack of
cylindrical cells, and each cell can capture objects that come into it. A
grab can drag the whole stack along its axis, and scrolling can nudge it.
This project models the three state machines that hold all of the
program's logic. Each one is an immutable record with pure step functions.

- **Rings** (`rings.dfy`, with the tweener in `tweens.dfy`). Each cell has
  two boundary rings, and each ring animates itself in. It starts in
  `Rezzing`. First a height transition slides it into place, then a scale
  transition grows it to its radius, and then it settles in `Idle` for
  good. `Derezzing` and `Derezzed` exist, but nothing leads into them.
- **Cells** (`cells.dfy`). Capture admission works like a gate:
  - While the cell is inactive, objects that enter its zone are queued by uid.
  - Every frame, `active` is recomputed from the bottom ring alone.
  - On a frame where the cell is active, the whole queue is handed to the
    zone's capture request and emptied.
  - A uid that leaves is dropped from the queue.
  - Capture requests appear as sets of uids. A run of events logs them as a
    multiset, so capture-once properties can be stated.
- **Magnetar** (`magnetar.dfy`). This is the stack and its frame handling:
  - `add_cell` geometry.
  - The grab and hover predicates.
  - The interaction point of each kind of input.
  - The scroll reduction.
  - The frame itself. Cells step first. Then the grab phases run: a start
    closes every gate and anchors `y_offset`, acting shows
    `y - y_offset + y_pos`, and a stop commits and reopens the gates.
    Scrolling runs last and shifts all three offsets.

The grab action's started/acting/stopped flags and its actor are per-frame
inputs. So are the frame length and the inputs the handler sees. The values
handed to the transform and size setters (`set_position`, `set_scale`,
`set_size`) become fields of the records: each ring's offset and scale, the
stack root's height, and the grab field's centre and length.
Offsets are `real`.

## Model

| member | source | states |
|---|---|---|
| Tweens.Ease | src/ring.rs:38-39 | Both easing curves send no progress to the start of the range and full progress to its end |
| Tweens.Update | src/ring.rs:49-54 | An update yields a value exactly when the tweener had not finished, and it then advances the elapsed time by the frame length. A finished tweener yields nothing and is left unchanged. The update that finishes it yields the end of the range |
| Tweens.NoneIsFinal | src/ring.rs:53-57 | Once a tweener yields nothing, every later update yields nothing |
| Tweens.LastValueIsEnd | src/ring.rs:38-39 | The update that uses up the remaining time yields exactly the range's end, and the next update yields nothing |
| Rings.NewFromPoint | src/ring.rs:26-41 | A new ring is `Rezzing`. Its unstarted ease-in height tween runs over 0..height, and its unstarted ease-out scale tween runs over 0.02..radius. Each lasts 0.25. The line loop starts at offset 0 and scale 0.02 |
| Rings.Step | src/ring.rs:43-64 | While the height tween runs, only it advances and only the offset moves; the scale tween is untouched. After that, only the scale tween advances and only the scale changes. The ring becomes `Idle` exactly when both tweens have finished (or it was already idle), and it keeps its offset and scale when it does. Every non-rezzing state is a fixed point |
| Rings.RunKeepsRezzes | src/ring.rs:44-58 | Any sequence of frames keeps a ring rezzing or idle. While rezzing, the scale tween has not moved unless the height tween has finished |
| Rings.OnlyRezzingOrIdleReachable | src/ring.rs:37-63 | From a new ring only `Rezzing` and `Idle` are reachable, and the height transition always completes before the scale transition starts |
| Rings.SettledStaysPut | src/ring.rs:59-61 | `Idle`, `Derezzing` and `Derezzed` rings are unchanged by any sequence of frames |
| Rings.IdleFromThirdLongFrame | src/ring.rs:37-57 | With frames of at least 0.25, a new ring is still rezzing after two frames. From the third frame on it is idle, at its full height and radius |
| Rings.IdleOnThirdQuarterFrame | src/ring.rs:37-57 | With frames of exactly 0.25, a new ring is not idle after one or two steps and is idle after the third |
| Cells.New | src/cell.rs:23-58 | A new cell sits at the given height, is inactive and has an empty queue. Its top ring rezzes to +0.5 and its bottom ring to -0.5, both with radius 1 |
| Cells.Step | src/cell.rs:60-73 | Both rings step. Afterwards `active` holds exactly when the bottom ring's post-step state is `Idle`; the previous value and the top ring have no effect. An active cell captures exactly its queue and empties it. An inactive cell captures nothing and keeps its queue |
| Cells.Enter | src/cell.rs:76-84 | Entering an active cell captures that uid at once and leaves the queue alone. Entering an inactive cell adds the uid to the queue (idempotent, it is a set) and captures nothing |
| Cells.Leave | src/cell.rs:87-89 | Leaving removes the uid from the queue if present and changes nothing else |
| Cells.OnCapture | src/cell.rs:85 | The capture callback is empty: the cell comes back unchanged in every field |
| Cells.OnRelease | src/cell.rs:86 | The release callback is empty: the cell comes back unchanged in every field |
| Cells.SetActive | src/magnetar.rs:97-99 | The owner's direct write sets `active` and keeps the queue, the rings and the height |
| Cells.Apply | src/cell.rs:60-89 | Over every event, captures are requested only while the cell is active after the event, and only for uids that were queued or that just entered |
| Cells.CapturedAtMostOnce | src/cell.rs:66-89 | With no fresh entry, a uid is captured at most as many times as it was pending (0 or 1), and never both captured and still pending. If it does not leave either, it is still pending or was captured exactly once |
| Cells.NeverCapturedAfterLeaving | src/cell.rs:87-89 | An object that leaves, and does not enter again, is never captured by any later drain |
| Cells.SettledUnlessForcedOn | src/cell.rs:62-83 | "Active implies an empty queue" survives frames, entries, exits, callbacks and forced closing |
| Cells.ForcedOnCanUnsettle | src/magnetar.rs:114-117 | Forcing a cell with a queued uid to active leaves it active with a non-empty queue until a later frame |
| Cells.GateIgnoresTopAndPrevious | src/cell.rs:61-65 | Two cells with the same bottom ring and queue step to the same gate, queue and captures, whatever their top rings or earlier `active` values |
| Cells.RunAppend | src/cell.rs:60-89 | Running two event sequences in turn is the same as running their concatenation, and the capture logs add up |
| Cells.GateOpensOnThirdFrame | src/cell.rs:62-72 | A cell whose bottom ring is new stays shut for two frames of 0.25 and captures its whole queue on the third |
| Cells.AdmissionScenario | src/cell.rs:60-89 | O enters and leaves, then P enters a new cell. Nothing is captured in the first two frames; on the third, P alone is captured, once |
| Magnetars.GrabAction | src/magnetar.rs:75-82 | A hand grabs exactly when its grab strength exceeds 0.8. Every other input grabs exactly when its grab axis exceeds 0.9 |
| Magnetars.GrabReadsOneValue | src/magnetar.rs:78-81 | A hand's grab ignores the grab axis, and other inputs ignore grab strength |
| Magnetars.Hovering | src/magnetar.rs:50-51 | An input hovers exactly when its signed distance lies strictly between -0.05 and 0.05 |
| Magnetars.InteractionPoint | src/magnetar.rs:145-151 | The actor's point is the deepest point for a pointer, the palm position for a hand and the origin for a tip |
| Magnetars.HoverActing | src/magnetar.rs:121-124 | The hover-acting inputs are exactly the frame's inputs that satisfy the hover predicate, each held as many times as the frame reports it |
| Magnetars.HoverActingScroll | src/magnetar.rs:121-131 | Masking the noise, the hovering inputs scroll exactly what every hovering input of the frame scrolls, counted once each |
| Magnetars.ReduceIsSum | src/magnetar.rs:132 | Reducing with `+` yields nothing for no values and otherwise their sum |
| Magnetars.SumOfScrollValues | src/magnetar.rs:125-132 | The filtered scaled scrolls sum to the reference sum, in which noise counts as zero. No value survives the filter exactly when every scaled scroll is at or below the f32 epsilon |
| Magnetars.ScrollAmount | src/magnetar.rs:121-132 | There is no scroll amount exactly when no hovering input's 0.1-scaled scroll exceeds the f32 epsilon in magnitude. Otherwise the amount is the sum of the scaled scrolls that do |
| Magnetars.New | src/magnetar.rs:31-64 | A new stack has no cells and all offsets at 0. Its root is at the origin and its grab field has length 0 and radius 1 |
| Magnetars.AddCellAsWritten | src/magnetar.rs:65-73 | With n cells present, the new cell is appended at height -n. The field is centred at n'*0.5-0.5 for the new count n', with length n' and radius 1. The offsets are unchanged |
| Magnetars.AddCell | src/magnetar.rs:65-73 | Same as above, but the field is centred at 0.5-n'*0.5, where n' is the new cell count (see Findings) |
| Magnetars.AddCellCoversStack | src/magnetar.rs:65-73 | Adding a cell keeps cell i at height -i, and the field then spans exactly from the bottom of the lowest cell's zone to the top of the first cell's |
| Magnetars.BuiltStackIsCovered | src/magnetar.rs:65-73 | Any stack built by adding cells has cell i at height -i, and once it has a cell its field covers them all |
| Magnetars.AsWrittenAgreesOnFirstCell | src/main.rs:16-17 | For the first cell, the only one the program adds, the placement as written equals the corrected one |
| Magnetars.AsWrittenFieldMissesSecondCell | src/magnetar.rs:67-72 | As written, with two cells the field spans -0.5..1.5 while the second cell is centred at -1, so the field does not cover the cells |
| Magnetars.SetAllActive | src/magnetar.rs:96-100 | Every cell gets the given `active` value and nothing else changes |
| Magnetars.Tick | src/magnetar.rs:85-142 | Each cell steps first and captures what its own step captures; only then does a stop (forcing true) or a start (forcing false) overwrite its gate. On a start-and-acting frame, `y_pos_tmp` equals `y_pos` (no jump at drag start), `y_pos` only moves by the scroll, and `y_offset` is the actor's height less the scroll. While acting, `y_pos_tmp = y - y_offset + y_pos` plus scroll. A stop commits `y_pos := y_pos_tmp`. A scroll s shifts `y_pos` and `y_pos_tmp` by +s and `y_offset` by -s; with no scroll they keep their phase values. The root moves to `y_pos_tmp` exactly on acting or scrolling frames. The field is untouched |
| Magnetars.ScrollFromInputs | src/magnetar.rs:121-136 | A frame scrolls exactly when one of its inputs hovers and scrolls above the f32 epsilon. It then shifts the offsets by what those inputs scroll, and otherwise by zero |
| Magnetars.TickMovesOffsets | src/magnetar.rs:96-141 | A frame moves `y_pos_tmp`, `y_pos` and `y_offset` by the phase-by-phase reference: re-anchor on start, show the actor relative to the anchor while acting, commit on stop, then scroll. The cells, root and field play no part |
| Magnetars.RunMovesOffsets | src/magnetar.rs:96-141 | Over any sequence of frames, the offsets follow the reference alone |
| Magnetars.StopOpensGates | src/magnetar.rs:86-119 | Whatever came before, a run whose last frame stops the grab leaves every gate open |
| Magnetars.RootFollowsShownPosition | src/magnetar.rs:101-141 | The root's height stays equal to `y_pos_tmp` across any sequence of frames |
| Magnetars.SuppressionLastsOneFrame | src/magnetar.rs:86-100 | A start closes every gate, but on the next frame without start or stop each gate again follows its own bottom ring |
| Magnetars.HoldThenRelease | src/magnetar.rs:101-119 | Through holding frames and a release, with no scroll, the committed position becomes the last actor height minus `y_offset` plus the old `y_pos`. Every gate is open afterwards |
| Magnetars.DragCommitsDisplacement | src/magnetar.rs:101-119 | Over a whole drag without scrolling, `y_pos` grows by exactly the actor's displacement from the start frame to the last holding frame, and every gate is open when the drag ends |
| Magnetars.ScrollDuringDragCountsTwice | src/magnetar.rs:101-136 | A scroll s during a drag moves `y_pos_tmp` by s at once. The next holding frame, with the actor unmoved, moves it by s again |
| Magnetars.DragScenario | src/magnetar.rs:96-119 | A hand grabs at y=2 with `y_pos`=0 and moves to 2.5: the stack shows 0.5. On release, 0.5 is committed and every gate opens |

Behaviours worth knowing, all as the code does them:

- **Scrolling mid-drag.** A scroll during a drag moves the stack at once,
  and again on the next acting frame
  (`Magnetars.ScrollDuringDragCountsTwice`).
- **Gates during a drag.** The gates that a drag's start closes are
  recomputed from each bottom ring on the next frame
  (`Magnetars.SuppressionLastsOneFrame`).
- **Capture callback.** The cell's `capture` callback is empty; the cell
  does not re-parent captured objects.

## Findings

| source | as written | input that shows it | evidently intended | confidence | as-written member | corrected member |
|---|---|---|---|---|---|---|
| src/magnetar.rs:70 | The grab field is centred at `cells_height * 0.5 - 0.5`, although cell i hangs at -i below the root | Two cells: the field spans -0.5..1.5, while the second cell's zone spans -1.5..-0.5 | Centre at `0.5 - cells_height * 0.5`, so the field spans the cells | medium, not executed | Magnetars.AddCellAsWritten | Magnetars.AddCell |

`Magnetars.AsWrittenFieldMissesSecondCell` exhibits the discrepancy.
`Magnetars.AddCellCoversStack` and `Magnetars.BuiltStackIsCovered` prove the
intended coverage for the corrected placement. `Magnetars.Build` uses the
corrected placement. The program only ever adds one cell, and for one cell
both placements agree (`Magnetars.AsWrittenAgreesOnFirstCell`).

## Left out

- Scene-graph work is not modelled: building spatials, fields, zones, lines and input handlers, and the transform setters. The heights and sizes handed to the setters are kept as record fields instead. The `unwrap` panics on failed calls are out of scope.
- The internals of the grab action are not modelled, including single-actor exclusivity and how an actor is chosen or kept. Its started/acting/stopped flags and actor are per-frame inputs. The only constraint is that an acting frame has an actor, which the source unwraps.
- The hover action's set of actively acting inputs is taken to be the frame's inputs that satisfy the hover predicate. The hover action's own bookkeeping is in another library.
- The datamap is reduced to three numbers per input: `grab`, `grabStrength` and the y component of `scroll`. Absent keys and non-numeric values are not modelled.
- Offsets are `real`, not 32-bit floats. No rounding is modelled, and reduction order does not matter. Only the f32 epsilon noise floor of the scroll filter is kept, with its exact value 2^-23.
- Tweens.Ease: its contract states only the endpoints of each curve, not bounds or monotonicity between them. The solver cannot reliably prove nonlinear real facts here.
- Tweens.Update: the value yielded mid-transition is the eased value, but nothing is proved about it beyond the end of the range. When exactly the tween library stops yielding is modelled as "once elapsed time reaches the duration".
- The capture request is assumed to reach a live zone. If the cell's weak zone reference were dead, the drain would be skipped and the queue kept; that case is not modelled.
- Debug printing in `enter` is left out.
- The grab-circle markers (src/grab_circle.rs) are not part of this model: the stack never constructs them.
- The process entry point (src/main.rs) is not part of this model, apart from the fact that it adds one cell. Neither is the C++ header src/workspaces.hpp, which holds declarations only.
