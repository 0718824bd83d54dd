/**
 * The magnetar: a vertical stack of cells that can be grabbed and dragged
 * along its axis, or nudged by scrolling. It keeps three offsets: the
 * committed position `yPos`, the position shown while dragging `yPosTmp`,
 * and `yOffset`, the actor height that maps to `yPos`: set to the actor's
 * height when a drag starts and moved against every scroll. The grab action's
 * started / acting / stopped flags and the actor come from the input
 * layer once per frame and are inputs here.
 */
module Magnetars {
  import opened Options
  import Rings
  import Cells

  /** Hands grab once their grab strength exceeds this. */
  const HandGrabThreshold: real := 0.8
  /** Pointers and tips grab once their grab axis exceeds this. */
  const GrabThreshold: real := 0.9
  /** An input hovers while its distance to the field is below this in magnitude. */
  const HoverDistance: real := 0.05
  /** Scroll input is scaled by this before it moves the stack. */
  const ScrollFactor: real := 0.1
  /** Radius of the grab field, on creation and on every resize. */
  const FieldRadius: real := 1.0
  /** Machine epsilon of 32-bit floats, 2^-23: scaled scroll at or below it is noise. */
  const F32Epsilon: real := 0.00000011920928955078125

  datatype Vec3 = Vec3(x: real, y: real, z: real)

  /** The three kinds of input, each with the point it interacts through. */
  datatype InputKind =
    | Pointer(deepestPoint: Vec3)
    | Hand(palmPosition: Vec3)
    | Tip(origin: Vec3)

  /**
   * One input as the handler reports it: its kind, its signed distance to
   * the field, and the three named values of its data map the stack reads.
   */
  datatype InputData = InputData(input: InputKind, distance: real, grab: real, grabStrength: real, scrollY: real)

  function Abs(x: real): real {
    if x < 0.0 then -x else x
  }

  /** The grab predicate: hands by grab strength, every other kind by its grab axis. */
  function GrabAction(d: InputData): (g: bool)
    ensures d.input.Hand? ==> (g <==> d.grabStrength > HandGrabThreshold)
    ensures !d.input.Hand? ==> (g <==> d.grab > GrabThreshold)
  {
    match d.input
    case Hand(_) => d.grabStrength > HandGrabThreshold
    case _ => d.grab > GrabThreshold
  }

  /** Each kind is judged on one value only; the other cannot make or break a grab. */
  lemma GrabReadsOneValue(d: InputData, v: real)
    ensures d.input.Hand? ==> GrabAction(d.(grab := v)) == GrabAction(d)
    ensures !d.input.Hand? ==> GrabAction(d.(grabStrength := v)) == GrabAction(d)
  {
  }

  /** The hover predicate: the input is within `HoverDistance` of the field, on either side. */
  function Hovering(d: InputData): (h: bool)
    ensures h <==> -HoverDistance < d.distance < HoverDistance
  {
    Abs(d.distance) < HoverDistance
  }

  /** The point an input acts through, by kind. */
  function InteractionPoint(d: InputData): (p: Vec3)
    ensures d.input.Pointer? ==> p == d.input.deepestPoint
    ensures d.input.Hand? ==> p == d.input.palmPosition
    ensures d.input.Tip? ==> p == d.input.origin
  {
    match d.input
    case Pointer(p) => p
    case Hand(p) => p
    case Tip(p) => p
  }

  /** The actor's height: the vertical coordinate of its interaction point. */
  function ActorY(d: InputData): real {
    InteractionPoint(d).y
  }

  /**
   * The inputs the hover action holds: those satisfying the hover predicate,
   * in order. Each hovering input is held as often as the frame reports it,
   * and nothing else is held.
   */
  function HoverActing(inputs: seq<InputData>): (h: seq<InputData>)
    ensures forall d {:trigger multiset(h)[d]} :: multiset(h)[d] == if Hovering(d) then multiset(inputs)[d] else 0
    ensures |h| <= |inputs|
    decreases |inputs|
  {
    if |inputs| == 0 then []
    else
      assert inputs == [inputs[0]] + inputs[1..];
      (if Hovering(inputs[0]) then [inputs[0]] else []) + HoverActing(inputs[1..])
  }

  /**
   * Independent reference over all of a frame's inputs: the scaled scroll of
   * every input that hovers and scrolls above the noise floor, added up in
   * order.
   */
  function HoveringScroll(inputs: seq<InputData>): real
    decreases |inputs|
  {
    if |inputs| == 0 then 0.0
    else
      var v := ScrollDelta(inputs[0]);
      (if Hovering(inputs[0]) && AboveNoise(v) then v else 0.0) + HoveringScroll(inputs[1..])
  }

  /** What the hovering inputs scroll, masked, is what every input that hovers scrolls, masked: nothing is dropped or counted twice. */
  lemma {:induction false} HoverActingScroll(inputs: seq<InputData>)
    ensures MaskedSum(HoverActing(inputs)) == HoveringScroll(inputs)
    decreases |inputs|
  {
    if |inputs| > 0 {
      HoverActingScroll(inputs[1..]);
      var rest := HoverActing(inputs[1..]);
      var h := HoverActing(inputs);
      if Hovering(inputs[0]) {
        assert h[0] == inputs[0] && h[1..] == rest;
      } else {
        assert h == rest;
      }
    }
  }

  /** What one input would scroll the stack by. */
  function ScrollDelta(d: InputData): real {
    d.scrollY * ScrollFactor
  }

  predicate AboveNoise(v: real) {
    Abs(v) > F32Epsilon
  }

  /** The scaled scroll of each input, keeping only those above the noise floor, in order. */
  function ScrollValues(hovering: seq<InputData>): seq<real>
    decreases |hovering|
  {
    if |hovering| == 0 then []
    else
      var v := ScrollDelta(hovering[0]);
      (if AboveNoise(v) then [v] else []) + ScrollValues(hovering[1..])
  }

  /** Left fold of `+` starting from `acc`. */
  function FoldAdd(acc: real, vs: seq<real>): real
    decreases |vs|
  {
    if |vs| == 0 then acc else FoldAdd(acc + vs[0], vs[1..])
  }

  /** Reduction with `+`: nothing for no values, otherwise their left-to-right sum. */
  function Reduce(vs: seq<real>): Option<real> {
    if |vs| == 0 then None else Some(FoldAdd(vs[0], vs[1..]))
  }

  /** Independent reference: every hovering input's scaled scroll, with the noise counted as zero. */
  function MaskedSum(hovering: seq<InputData>): real
    decreases |hovering|
  {
    if |hovering| == 0 then 0.0
    else
      var v := ScrollDelta(hovering[0]);
      (if AboveNoise(v) then v else 0.0) + MaskedSum(hovering[1..])
  }

  function Sum(vs: seq<real>): real
    decreases |vs|
  {
    if |vs| == 0 then 0.0 else vs[0] + Sum(vs[1..])
  }

  lemma {:induction false} FoldAddIsSum(acc: real, vs: seq<real>)
    ensures FoldAdd(acc, vs) == acc + Sum(vs)
    decreases |vs|
  {
    if |vs| > 0 {
      FoldAddIsSum(acc + vs[0], vs[1..]);
    }
  }

  /** The reduction yields a value exactly when there are values, and then their sum. */
  lemma ReduceIsSum(vs: seq<real>)
    ensures Reduce(vs).None? <==> |vs| == 0
    ensures Reduce(vs).Some? ==> Reduce(vs).value == Sum(vs)
  {
    if |vs| > 0 {
      FoldAddIsSum(vs[0], vs[1..]);
    }
  }

  lemma {:induction false} SumOfScrollValues(hovering: seq<InputData>)
    ensures Sum(ScrollValues(hovering)) == MaskedSum(hovering)
    ensures |ScrollValues(hovering)| == 0 <==>
      forall i :: 0 <= i < |hovering| ==> !AboveNoise(ScrollDelta(hovering[i]))
    decreases |hovering|
  {
    if |hovering| > 0 {
      SumOfScrollValues(hovering[1..]);
      var v := ScrollDelta(hovering[0]);
      var head: seq<real> := if AboveNoise(v) then [v] else [];
      SumAppend(head, ScrollValues(hovering[1..]));
      if forall i :: 0 <= i < |hovering| ==> !AboveNoise(ScrollDelta(hovering[i])) {
        assert !AboveNoise(v);
        forall i | 0 <= i < |hovering[1..]| ensures !AboveNoise(ScrollDelta(hovering[1..][i])) {
          assert hovering[1..][i] == hovering[i + 1];
        }
      } else {
        var k :| 0 <= k < |hovering| && AboveNoise(ScrollDelta(hovering[k]));
        if k > 0 {
          assert hovering[1..][k - 1] == hovering[k];
        }
      }
    }
  }

  lemma {:induction false} SumAppend(a: seq<real>, b: seq<real>)
    ensures Sum(a + b) == Sum(a) + Sum(b)
    decreases |a|
  {
    if |a| > 0 {
      assert (a + b)[1..] == a[1..] + b;
      SumAppend(a[1..], b);
    } else {
      assert a + b == b;
    }
  }

  /**
   * The scroll amount of a frame: nothing when no hovering input scrolls
   * above the noise floor, otherwise the sum of the scaled scrolls of those
   * that do.
   */
  function ScrollAmount(hovering: seq<InputData>): (s: Option<real>)
    ensures s.None? <==> forall i :: 0 <= i < |hovering| ==> !AboveNoise(ScrollDelta(hovering[i]))
    ensures s.Some? ==> s.value == MaskedSum(hovering)
  {
    var vs := ScrollValues(hovering);
    SumOfScrollValues(hovering);
    ReduceIsSum(vs);
    Reduce(vs)
  }

  /** The stack: its cells, top first, its offsets, the height its root was last moved to, and its grab field. */
  datatype Magnetar = Magnetar(
    cells: seq<Cells.Cell>,
    yPosTmp: real,
    yPos: real,
    yOffset: real,
    rootY: real,
    fieldY: real,
    fieldLength: real,
    fieldRadius: real)

  /** A new stack: no cells, every offset zero, the root at the origin, an empty field of radius 1. */
  function New(): (m: Magnetar)
    ensures m.cells == []
    ensures m.yPosTmp == 0.0 && m.yPos == 0.0 && m.yOffset == 0.0 && m.rootY == 0.0
    ensures m.fieldY == 0.0 && m.fieldLength == 0.0 && m.fieldRadius == FieldRadius
  {
    Magnetar([], 0.0, 0.0, 0.0, 0.0, 0.0, 0.0, FieldRadius)
  }

  /**
   * Appending a cell as the program does: the new cell hangs one unit below
   * the previous one, and the field is stretched to the new cell count and
   * centred at half the count minus a half.
   */
  function AddCellAsWritten(m: Magnetar): (r: Magnetar)
    ensures r.cells == m.cells + [Cells.New(-(|m.cells| as real))]
    ensures r.fieldY == (|r.cells| as real) * 0.5 - 0.5
    ensures r.fieldLength == |r.cells| as real && r.fieldRadius == FieldRadius
    ensures r.(cells := m.cells, fieldY := m.fieldY, fieldLength := m.fieldLength, fieldRadius := m.fieldRadius) == m
  {
    var cells := m.cells + [Cells.New(-(|m.cells| as real))];
    var n := |cells| as real;
    m.(cells := cells, fieldY := n * 0.5 - 0.5, fieldLength := n, fieldRadius := FieldRadius)
  }

  /** Appending a cell with the field centred on the stack the cells actually form. */
  function AddCell(m: Magnetar): (r: Magnetar)
    ensures r.cells == m.cells + [Cells.New(-(|m.cells| as real))]
    ensures r.fieldY == 0.5 - (|r.cells| as real) * 0.5
    ensures r.fieldLength == |r.cells| as real && r.fieldRadius == FieldRadius
    ensures r.(cells := m.cells, fieldY := m.fieldY, fieldLength := m.fieldLength, fieldRadius := m.fieldRadius) == m
  {
    var cells := m.cells + [Cells.New(-(|m.cells| as real))];
    var n := |cells| as real;
    m.(cells := cells, fieldY := 0.5 - n * 0.5, fieldLength := n, fieldRadius := FieldRadius)
  }

  /** Cell `i` hangs `i` units below the root. */
  predicate Stacked(m: Magnetar) {
    forall i :: 0 <= i < |m.cells| ==> m.cells[i].y == -(i as real)
  }

  /** The grab field spans exactly from the bottom of the lowest cell's zone to the top of the first one's, at the cells' radius. */
  predicate FieldCoversCells(m: Magnetar) {
    && |m.cells| > 0
    && m.fieldY - m.fieldLength / 2.0 == m.cells[|m.cells| - 1].y - Cells.ZoneLength / 2.0
    && m.fieldY + m.fieldLength / 2.0 == m.cells[0].y + Cells.ZoneLength / 2.0
    && m.fieldRadius == Cells.ZoneRadius
  }

  /** Adding a cell to a stacked magnetar keeps it stacked and leaves the field covering every cell. */
  lemma AddCellCoversStack(m: Magnetar)
    requires Stacked(m)
    ensures Stacked(AddCell(m))
    ensures FieldCoversCells(AddCell(m))
  {
    var r := AddCell(m);
    var n := |m.cells|;
    assert r.cells[n].y == -(n as real);
    forall i | 0 <= i < |r.cells| ensures r.cells[i].y == -(i as real) {
      if i < n { assert r.cells[i] == m.cells[i]; }
    }
  }

  /** A new magnetar with `n` cells added. */
  function Build(n: nat): Magnetar
    decreases n
  {
    if n == 0 then New() else AddCell(Build(n - 1))
  }

  /** Every stack built by adding cells is stacked, and its field covers its cells once it has one. */
  lemma {:induction false} BuiltStackIsCovered(n: nat)
    ensures |Build(n).cells| == n
    ensures Stacked(Build(n))
    ensures n > 0 ==> FieldCoversCells(Build(n))
    decreases n
  {
    if n > 0 {
      BuiltStackIsCovered(n - 1);
      AddCellCoversStack(Build(n - 1));
    }
  }

  /** The placement as written agrees with the corrected one for the first cell, the only one the program adds. */
  lemma AsWrittenAgreesOnFirstCell(m: Magnetar)
    requires |m.cells| == 0
    ensures AddCellAsWritten(m) == AddCell(m)
  {
  }

  /**
   * With two cells, the placement as written centres the field at 0.5 so it
   * spans heights -0.5 to 1.5, while the second cell's zone spans -1.5 to
   * -0.5: the second cell's centre lies outside the grab field.
   */
  lemma AsWrittenFieldMissesSecondCell()
    ensures AddCellAsWritten(AddCellAsWritten(New())).cells[1].y == -1.0
    ensures AddCellAsWritten(AddCellAsWritten(New())).fieldY == 0.5
    ensures AddCellAsWritten(AddCellAsWritten(New())).fieldLength == 2.0
    ensures !FieldCoversCells(AddCellAsWritten(AddCellAsWritten(New())))
  {
  }

  /**
   * What the input layer reports for one frame: its length, the grab
   * action's phase flags, its actor, and every input the handler sees.
   */
  datatype Frame = Frame(
    delta: real,
    started: bool,
    acting: bool,
    stopped: bool,
    actor: Option<InputData>,
    inputs: seq<InputData>)

  /** An acting grab always has an actor. */
  predicate WellFormed(f: Frame) {
    f.acting ==> f.actor.Some?
  }

  /** How far the frame scrolls the stack; zero when it does not scroll. */
  function ScrollShift(f: Frame): real {
    ScrollAmount(HoverActing(f.inputs)).GetOr(0.0)
  }

  predicate Scrolled(f: Frame) {
    ScrollAmount(HoverActing(f.inputs)).Some?
  }

  /** A frame scrolls exactly when one of its inputs hovers and scrolls above the noise floor, and then by what the hovering inputs scroll. */
  lemma ScrollFromInputs(f: Frame)
    ensures Scrolled(f) <==>
      exists i :: 0 <= i < |f.inputs| && Hovering(f.inputs[i]) && AboveNoise(ScrollDelta(f.inputs[i]))
    ensures ScrollShift(f) == if Scrolled(f) then HoveringScroll(f.inputs) else 0.0
  {
    var h := HoverActing(f.inputs);
    HoverActingScroll(f.inputs);
    if exists i :: 0 <= i < |f.inputs| && Hovering(f.inputs[i]) && AboveNoise(ScrollDelta(f.inputs[i])) {
      var i :| 0 <= i < |f.inputs| && Hovering(f.inputs[i]) && AboveNoise(ScrollDelta(f.inputs[i]));
      var d := f.inputs[i];
      assert d in f.inputs;
      assert multiset(h)[d] > 0;
      assert d in h;
    }
    if Scrolled(f) {
      var k :| 0 <= k < |h| && AboveNoise(ScrollDelta(h[k]));
      var d := h[k];
      assert d in h;
      assert multiset(h)[d] > 0;
      assert Hovering(d) && multiset(f.inputs)[d] > 0;
      assert d in f.inputs;
    }
  }

  /** The owner's loop over its cells, writing the same `active` into each. */
  function SetAllActive(cells: seq<Cells.Cell>, active: bool): (r: seq<Cells.Cell>)
    ensures |r| == |cells|
    ensures forall i :: 0 <= i < |r| ==> r[i] == Cells.SetActive(cells[i], active)
  {
    seq(|cells|, i requires 0 <= i < |cells| => Cells.SetActive(cells[i], active))
  }

  /** Phase handling after the cells have stepped: suppress on start, follow the actor while acting, commit and restore on stop. */
  function ApplyGrab(m: Magnetar, f: Frame): Magnetar
    requires WellFormed(f)
  {
    var m1 := if f.started then m.(cells := SetAllActive(m.cells, false)) else m;
    var m2 :=
      if f.acting then
        var y := ActorY(f.actor.value);
        var offset := if f.started then y else m1.yOffset;
        var tmp := y - offset + m1.yPos;
        m1.(yOffset := offset, yPosTmp := tmp, rootY := tmp)
      else m1;
    if f.stopped then m2.(cells := SetAllActive(m2.cells, true), yPos := m2.yPosTmp) else m2
  }

  /** Scroll handling: a scrolling frame moves all three offsets and the root. */
  function ApplyScroll(m: Magnetar, f: Frame): Magnetar {
    match ScrollAmount(HoverActing(f.inputs))
    case None => m
    case Some(s) =>
      m.(yOffset := m.yOffset - s, yPos := m.yPos + s, yPosTmp := m.yPosTmp + s, rootY := m.yPosTmp + s)
  }

  /** The stack after a frame, and what each cell asked its zone to capture during it. */
  datatype Ticked = Ticked(magnetar: Magnetar, captured: seq<set<string>>)

  /**
   * Cell `before` became `after` in frame `f`: it stepped first, capturing
   * `captured`, and only then did the grab phases overwrite its gate.
   */
  predicate CellTicked(before: Cells.Cell, f: Frame, after: Cells.Cell, captured: set<string>) {
    var s := Cells.Step(before, f.delta);
    && after == s.cell.(active := if f.stopped then true else if f.started then false else s.cell.active)
    && captured == s.captured
  }

  /**
   * One frame. Every cell steps; then a starting grab closes every gate and
   * anchors `yOffset` at the actor's height, an acting grab shows
   * `y - yOffset + yPos`, a stopping grab commits the shown position and
   * opens every gate; finally a scrolling frame shifts all three offsets by
   * the scroll amount, `yOffset` the other way.
   */
  function Tick(m: Magnetar, f: Frame): (t: Ticked)
    requires WellFormed(f)
    ensures |t.magnetar.cells| == |m.cells| && |t.captured| == |m.cells|
    ensures forall i :: 0 <= i < |m.cells| ==> CellTicked(m.cells[i], f, t.magnetar.cells[i], t.captured[i])
    ensures f.acting && f.started ==> t.magnetar.yPosTmp == t.magnetar.yPos
    ensures f.acting && f.started ==> t.magnetar.yPos == m.yPos + ScrollShift(f)
    ensures f.acting && f.started ==> t.magnetar.yOffset == ActorY(f.actor.value) - ScrollShift(f)
    ensures f.acting && !f.started ==>
      t.magnetar.yPosTmp == ActorY(f.actor.value) - m.yOffset + m.yPos + ScrollShift(f)
    ensures !f.acting ==> t.magnetar.yPosTmp == m.yPosTmp + ScrollShift(f)
    ensures !(f.acting && f.started) ==> t.magnetar.yOffset == m.yOffset - ScrollShift(f)
    ensures f.stopped ==> t.magnetar.yPos == t.magnetar.yPosTmp
    ensures !f.stopped ==> t.magnetar.yPos == m.yPos + ScrollShift(f)
    ensures t.magnetar.rootY == if f.acting || Scrolled(f) then t.magnetar.yPosTmp else m.rootY
    ensures t.magnetar.fieldY == m.fieldY && t.magnetar.fieldLength == m.fieldLength
    ensures t.magnetar.fieldRadius == m.fieldRadius
  {
    var stepped := seq(|m.cells|, i requires 0 <= i < |m.cells| => Cells.Step(m.cells[i], f.delta));
    var m1 := m.(cells := seq(|m.cells|, i requires 0 <= i < |m.cells| => stepped[i].cell));
    Ticked(ApplyScroll(ApplyGrab(m1, f), f), seq(|m.cells|, i requires 0 <= i < |m.cells| => stepped[i].captured))
  }

  predicate AllWellFormed(fs: seq<Frame>) {
    forall i :: 0 <= i < |fs| ==> WellFormed(fs[i])
  }

  /** The stack after the frames `fs`, in order. */
  function Run(m: Magnetar, fs: seq<Frame>): Magnetar
    requires AllWellFormed(fs)
    decreases |fs|
  {
    if |fs| == 0 then m else Run(Tick(m, fs[0]).magnetar, fs[1..])
  }

  /** The root is always shown at `yPosTmp`: every frame that moves one moves the other to match. */
  lemma {:induction false} RootFollowsShownPosition(m: Magnetar, fs: seq<Frame>)
    requires AllWellFormed(fs)
    requires m.rootY == m.yPosTmp
    ensures Run(m, fs).rootY == Run(m, fs).yPosTmp
    decreases |fs|
  {
    if |fs| > 0 {
      RootFollowsShownPosition(Tick(m, fs[0]).magnetar, fs[1..]);
    }
  }

  /** The frame after a grab starts: the gates closed by the start do not outlast it, each one follows its bottom ring again. */
  lemma SuppressionLastsOneFrame(m: Magnetar, f1: Frame, f2: Frame)
    requires WellFormed(f1) && WellFormed(f2)
    requires f1.started && !f1.stopped
    requires !f2.started && !f2.stopped
    ensures forall i :: 0 <= i < |m.cells| ==> !Tick(m, f1).magnetar.cells[i].active
    ensures forall i :: 0 <= i < |m.cells| ==>
      var c := Tick(m, f1).magnetar.cells[i];
      Tick(Tick(m, f1).magnetar, f2).magnetar.cells[i].active <==> Rings.Step(c.bottom, f2.delta).state.Idle?
  {
  }

  /** A frame in the middle of a drag: the grab persists, no new start, no stop. */
  predicate Holding(f: Frame) {
    !f.started && f.acting && !f.stopped && f.actor.Some?
  }

  /** The frame that ends a drag. */
  predicate Releasing(f: Frame) {
    !f.started && !f.acting && f.stopped
  }

  /** Holding frames followed by the releasing one. */
  predicate DragTail(fs: seq<Frame>) {
    && |fs| >= 1
    && (forall i :: 0 <= i < |fs| - 1 ==> Holding(fs[i]))
    && Releasing(fs[|fs| - 1])
  }

  predicate NoScroll(fs: seq<Frame>) {
    forall i :: 0 <= i < |fs| ==> !Scrolled(fs[i])
  }

  /** One whole drag: a starting frame, holding frames, the releasing frame, and no scrolling. */
  predicate Drag(fs: seq<Frame>) {
    && |fs| >= 2
    && fs[0].started && fs[0].acting && !fs[0].stopped && fs[0].actor.Some?
    && (forall i :: 1 <= i < |fs| - 1 ==> Holding(fs[i]))
    && Releasing(fs[|fs| - 1])
    && NoScroll(fs)
  }

  /** The three offsets of a stack, apart from its cells, root and field. */
  datatype Offsets = Offsets(yPosTmp: real, yPos: real, yOffset: real)

  function OffsetsOf(m: Magnetar): Offsets {
    Offsets(m.yPosTmp, m.yPos, m.yOffset)
  }

  /**
   * Reference for how one frame moves the offsets, phase by phase: an acting
   * grab re-anchors on its start and shows the actor relative to the anchor,
   * a stop commits what is shown, and the scroll then shifts all three.
   */
  function StepOffsets(o: Offsets, f: Frame): Offsets
    requires WellFormed(f)
  {
    var anchor := if f.acting && f.started then ActorY(f.actor.value) else o.yOffset;
    var shown := if f.acting then ActorY(f.actor.value) - anchor + o.yPos else o.yPosTmp;
    var committed := if f.stopped then shown else o.yPos;
    var s := ScrollShift(f);
    Offsets(shown + s, committed + s, anchor - s)
  }

  /** A frame moves the offsets as the reference says, whatever the cells, the root and the field are. */
  lemma TickMovesOffsets(m: Magnetar, f: Frame)
    requires WellFormed(f)
    ensures OffsetsOf(Tick(m, f).magnetar) == StepOffsets(OffsetsOf(m), f)
  {
  }

  /** The offsets after the frames `fs`, in order. */
  function RunOffsets(o: Offsets, fs: seq<Frame>): Offsets
    requires AllWellFormed(fs)
    decreases |fs|
  {
    if |fs| == 0 then o else RunOffsets(StepOffsets(o, fs[0]), fs[1..])
  }

  /** Over any run, the offsets evolve on their own: the cells never feed back into them. */
  lemma {:induction false} RunMovesOffsets(m: Magnetar, fs: seq<Frame>)
    requires AllWellFormed(fs)
    ensures OffsetsOf(Run(m, fs)) == RunOffsets(OffsetsOf(m), fs)
    decreases |fs|
  {
    if |fs| > 0 {
      TickMovesOffsets(m, fs[0]);
      RunMovesOffsets(Tick(m, fs[0]).magnetar, fs[1..]);
    }
  }

  /** A frame that starts and acts, without scroll, anchors at the actor and shows the committed position unchanged. */
  lemma StartStep(o: Offsets, f: Frame)
    requires f.started && f.acting && !f.stopped && f.actor.Some? && !Scrolled(f)
    ensures StepOffsets(o, f) == Offsets(o.yPos, o.yPos, ActorY(f.actor.value))
  {
    assert ScrollShift(f) == 0.0;
  }

  /** A holding frame without scroll keeps both offsets and shows the actor's height relative to the drag's anchor. */
  lemma HoldStep(o: Offsets, f: Frame)
    requires Holding(f) && !Scrolled(f)
    ensures StepOffsets(o, f) == Offsets(ActorY(f.actor.value) - o.yOffset + o.yPos, o.yPos, o.yOffset)
  {
    assert ScrollShift(f) == 0.0;
  }

  /** A releasing frame without scroll commits the shown position. */
  lemma ReleaseStep(o: Offsets, f: Frame)
    requires Releasing(f) && !Scrolled(f)
    ensures StepOffsets(o, f).yPos == o.yPosTmp
  {
    assert ScrollShift(f) == 0.0;
  }

  /** Whatever came before, a run whose last frame stops the grab leaves every gate open. */
  lemma {:induction false} StopOpensGates(m: Magnetar, fs: seq<Frame>)
    requires AllWellFormed(fs) && |fs| >= 1 && fs[|fs| - 1].stopped
    ensures forall i :: 0 <= i < |Run(m, fs).cells| ==> Run(m, fs).cells[i].active
    decreases |fs|
  {
    var t := Tick(m, fs[0]).magnetar;
    assert Run(m, fs) == Run(t, fs[1..]);
    if |fs| == 1 {
      assert Run(t, fs[1..]) == t;
    } else {
      var rest := fs[1..];
      assert AllWellFormed(rest) by {
        forall i | 0 <= i < |rest| ensures WellFormed(rest[i]) {
          assert rest[i] == fs[i + 1];
        }
      }
      assert rest[|rest| - 1] == fs[|fs| - 1];
      StopOpensGates(t, rest);
    }
  }

  lemma HoldThenRelease(m: Magnetar, fs: seq<Frame>, y0: real, p: real, yPrev: real)
    requires AllWellFormed(fs) && DragTail(fs) && NoScroll(fs)
    requires m.yOffset == y0 && m.yPos == p && m.yPosTmp == yPrev - y0 + p
    ensures |fs| == 1 ==> Run(m, fs).yPos == yPrev - y0 + p
    ensures |fs| >= 2 ==> Run(m, fs).yPos == ActorY(fs[|fs| - 2].actor.value) - y0 + p
    ensures forall i :: 0 <= i < |Run(m, fs).cells| ==> Run(m, fs).cells[i].active
  {
    StopOpensGates(m, fs);
    RunMovesOffsets(m, fs);
    CommitAfterHolding(OffsetsOf(m), fs, y0, p, yPrev);
  }

  /** The committed-position half of `HoldThenRelease`, on the offsets alone, by induction over the holding frames. */
  lemma {:induction false} CommitAfterHolding(o: Offsets, fs: seq<Frame>, y0: real, p: real, yPrev: real)
    requires AllWellFormed(fs) && DragTail(fs) && NoScroll(fs)
    requires o == Offsets(yPrev - y0 + p, p, y0)
    ensures |fs| == 1 ==> RunOffsets(o, fs).yPos == yPrev - y0 + p
    ensures |fs| >= 2 ==> RunOffsets(o, fs).yPos == ActorY(fs[|fs| - 2].actor.value) - y0 + p
    decreases |fs|
  {
    assert !Scrolled(fs[0]);
    var o1 := StepOffsets(o, fs[0]);
    assert RunOffsets(o, fs) == RunOffsets(o1, fs[1..]);
    if |fs| == 1 {
      ReleaseStep(o, fs[0]);
      assert RunOffsets(o1, fs[1..]) == o1;
    } else {
      var rest := fs[1..];
      DragTailRest(fs);
      HoldStep(o, fs[0]);
      CommitAfterHolding(o1, rest, y0, p, ActorY(fs[0].actor.value));
    }
  }

  /** Dropping the first of several drag-tail frames: it was a holding one, and the rest is a drag tail again. */
  lemma DragTailRest(fs: seq<Frame>)
    requires AllWellFormed(fs) && DragTail(fs) && NoScroll(fs) && |fs| >= 2
    ensures Holding(fs[0]) && !Scrolled(fs[0])
    ensures AllWellFormed(fs[1..]) && DragTail(fs[1..]) && NoScroll(fs[1..])
    ensures |fs| >= 3 ==> fs[1..][|fs| - 3] == fs[|fs| - 2]
  {
    var rest := fs[1..];
    forall i | 0 <= i < |rest| ensures WellFormed(rest[i]) && !Scrolled(rest[i]) {
      assert rest[i] == fs[i + 1];
    }
    forall i | 0 <= i < |rest| - 1 ensures Holding(rest[i]) {
      assert rest[i] == fs[i + 1];
    }
    assert rest[|rest| - 1] == fs[|fs| - 1];
  }

  /** Dropping the starting frame of a drag leaves a drag tail. */
  lemma DragRest(fs: seq<Frame>)
    requires AllWellFormed(fs) && Drag(fs)
    ensures !Scrolled(fs[0])
    ensures AllWellFormed(fs[1..]) && DragTail(fs[1..]) && NoScroll(fs[1..])
    ensures |fs| >= 3 ==> fs[1..][|fs| - 3] == fs[|fs| - 2]
  {
    var rest := fs[1..];
    forall i | 0 <= i < |rest| ensures WellFormed(rest[i]) && !Scrolled(rest[i]) {
      assert rest[i] == fs[i + 1];
    }
    forall i | 0 <= i < |rest| - 1 ensures Holding(rest[i]) {
      assert rest[i] == fs[i + 1];
    }
    assert rest[|rest| - 1] == fs[|fs| - 1];
  }

  /**
   * Over one drag without scrolling, the committed position moves by exactly
   * how far the actor moved between the starting frame and the last
   * holding one, and every gate is open when the drag ends.
   */
  lemma DragCommitsDisplacement(m: Magnetar, fs: seq<Frame>)
    requires AllWellFormed(fs) && Drag(fs)
    ensures m.yPos + (ActorY(fs[|fs| - 2].actor.value) - ActorY(fs[0].actor.value)) == Run(m, fs).yPos
    ensures forall i :: 0 <= i < |Run(m, fs).cells| ==> Run(m, fs).cells[i].active
  {
    StopOpensGates(m, fs);
    RunMovesOffsets(m, fs);
    DragOffsets(OffsetsOf(m), fs);
  }

  /** The committed-position half of `DragCommitsDisplacement`, on the offsets alone. */
  lemma DragOffsets(o: Offsets, fs: seq<Frame>)
    requires AllWellFormed(fs) && Drag(fs)
    ensures o.yPos + (ActorY(fs[|fs| - 2].actor.value) - ActorY(fs[0].actor.value)) == RunOffsets(o, fs).yPos
  {
    DragRest(fs);
    var y0 := ActorY(fs[0].actor.value);
    StartStep(o, fs[0]);
    assert RunOffsets(o, fs) == RunOffsets(StepOffsets(o, fs[0]), fs[1..]);
    CommitAfterHolding(StepOffsets(o, fs[0]), fs[1..], y0, o.yPos, y0);
  }

  /**
   * A scroll in the middle of a drag moves the shown position by the scroll
   * amount, and, because `yOffset` and `yPos` were both shifted, the next
   * holding frame moves it by the same amount again although the actor has
   * not moved.
   */
  lemma ScrollDuringDragCountsTwice(m: Magnetar, f1: Frame, f2: Frame)
    requires Holding(f1) && Holding(f2)
    requires ActorY(f2.actor.value) == ActorY(f1.actor.value)
    requires !Scrolled(f2)
    ensures Tick(m, f1).magnetar.yPosTmp == ActorY(f1.actor.value) - m.yOffset + m.yPos + ScrollShift(f1)
    ensures Tick(Tick(m, f1).magnetar, f2).magnetar.yPosTmp == Tick(m, f1).magnetar.yPosTmp + ScrollShift(f1)
  {
  }

  /**
   * A hand grabs at height 2 with the stack at 0 and moves to 2.5: the stack
   * is shown at 0.5; on release 0.5 is committed and every gate opens.
   */
  lemma DragScenario(m: Magnetar, dt: real)
    requires m.yPos == 0.0
    ensures
      var hand := InputData(Hand(Vec3(0.0, 2.0, 0.0)), 0.0, 0.0, 1.0, 0.0);
      var m1 := Tick(m, Frame(dt, true, true, false, Some(hand), [])).magnetar;
      var m2 := Tick(m1, Frame(dt, false, true, false, Some(hand.(input := Hand(Vec3(0.0, 2.5, 0.0)))), [])).magnetar;
      var m3 := Tick(m2, Frame(dt, false, false, true, None, [])).magnetar;
      && m1.yPosTmp == 0.0
      && m2.yPosTmp == 0.5
      && m3.yPos == 0.5
      && (forall i :: 0 <= i < |m3.cells| ==> m3.cells[i].active)
  {
    assert ScrollAmount(HoverActing([])).None?;
  }
}
