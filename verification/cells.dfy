/**
 * A cell: one shelf level. It owns a capture zone and two rings marking its
 * top and bottom, and admits objects into the zone under a gate: while the
 * cell is inactive, objects that enter are queued by uid; on the first
 * frame the cell is active the whole queue is captured and emptied. The
 * zone's `capture(uid)` request is modelled as the set of uids a call hands
 * to it.
 */
module Cells {
  import Rings

  /** Offsets of the top and bottom rings from the cell's root. */
  const TopRingHeight: real := 0.5
  const BottomRingHeight: real := -0.5
  /** Radius of both rings. */
  const RingRadius: real := 1.0
  /** Radius of the cell's cylindrical zone. */
  const ZoneRadius: real := 1.0
  /** Length of the cell's cylindrical zone along the stack's axis. */
  const ZoneLength: real := 1.0

  /**
   * `y` is the root's offset inside the stack; `queued` holds the uids of
   * objects that entered while the cell was inactive.
   */
  datatype Cell = Cell(y: real, active: bool, queued: set<string>, top: Rings.Ring, bottom: Rings.Ring)

  /** A new cell at `height`: inactive, nothing queued, both rings starting to rez. */
  function New(height: real): (c: Cell)
    ensures c.y == height
    ensures !c.active && c.queued == {}
    ensures c.top == Rings.NewFromPoint(TopRingHeight, RingRadius)
    ensures c.bottom == Rings.NewFromPoint(BottomRingHeight, RingRadius)
  {
    Cell(height, false, {},
         Rings.NewFromPoint(TopRingHeight, RingRadius),
         Rings.NewFromPoint(BottomRingHeight, RingRadius))
  }

  /** A cell after a call, and the uids the call asked the zone to capture. */
  datatype Stepped = Stepped(cell: Cell, captured: set<string>)

  /**
   * One frame of `dt`. Both rings step; `active` is then recomputed from the
   * bottom ring alone, discarding whatever it held before; an active cell
   * captures every queued uid once and empties its queue, an inactive one
   * captures nothing and keeps its queue.
   */
  function Step(c: Cell, dt: real): (s: Stepped)
    ensures s.cell.top == Rings.Step(c.top, dt)
    ensures s.cell.bottom == Rings.Step(c.bottom, dt)
    ensures s.cell.active <==> Rings.Step(c.bottom, dt).state.Idle?
    ensures s.cell.active ==> s.captured == c.queued && s.cell.queued == {}
    ensures !s.cell.active ==> s.captured == {} && s.cell.queued == c.queued
    ensures s.cell.y == c.y
  {
    var top := Rings.Step(c.top, dt);
    var bottom := Rings.Step(c.bottom, dt);
    var active := bottom.state.Idle?;
    if active && c.queued != {} then
      Stepped(Cell(c.y, active, {}, top, bottom), c.queued)
    else
      Stepped(Cell(c.y, active, c.queued, top, bottom), {})
  }

  /** An object enters the zone: captured at once if the cell is active, queued otherwise. */
  function Enter(c: Cell, uid: string): (s: Stepped)
    ensures s.cell.active == c.active
    ensures c.active ==> s.captured == {uid} && s.cell.queued == c.queued
    ensures !c.active ==> s.captured == {} && s.cell.queued == c.queued + {uid}
    ensures s.cell.y == c.y && s.cell.top == c.top && s.cell.bottom == c.bottom
  {
    if c.active then Stepped(c, {uid})
    else Stepped(c.(queued := c.queued + {uid}), {})
  }

  /** An object leaves the zone: it is dropped from the queue if it was there. */
  function Leave(c: Cell, uid: string): (r: Cell)
    ensures uid !in r.queued
    ensures r.queued + {uid} == c.queued + {uid}
    ensures r.active == c.active && r.y == c.y && r.top == c.top && r.bottom == c.bottom
  {
    c.(queued := c.queued - {uid})
  }

  /** The zone reports a capture: the cell does nothing with it. */
  function OnCapture(c: Cell, uid: string): (r: Cell)
    ensures r == c
  {
    c
  }

  /** The zone reports a release: the cell does nothing with it. */
  function OnRelease(c: Cell, uid: string): (r: Cell)
    ensures r == c
  {
    c
  }

  /** The owner overwrites `active` directly, leaving everything else alone. */
  function SetActive(c: Cell, active: bool): (r: Cell)
    ensures r.active == active
    ensures r.queued == c.queued && r.y == c.y && r.top == c.top && r.bottom == c.bottom
  {
    c.(active := active)
  }

  /** Everything that can happen to a cell between or during frames. */
  datatype Event =
    | Tick(dt: real)
    | Entered(uid: string)
    | Left(uid: string)
    | Captured(uid: string)
    | Released(uid: string)
    | Forced(active: bool)

  /** Dispatches one event; only frames and entries ever ask for captures, and only while active. */
  function Apply(c: Cell, e: Event): (s: Stepped)
    ensures s.captured != {} ==> s.cell.active
    ensures forall u :: u in s.captured ==> u in c.queued || e == Entered(u)
  {
    match e
    case Tick(dt) => Step(c, dt)
    case Entered(uid) => Enter(c, uid)
    case Left(uid) => Stepped(Leave(c, uid), {})
    case Captured(uid) => Stepped(OnCapture(c, uid), {})
    case Released(uid) => Stepped(OnRelease(c, uid), {})
    case Forced(active) => Stepped(SetActive(c, active), {})
  }

  /** A cell after a sequence of events, with every capture request issued, counted per uid. */
  datatype Trace = Trace(cell: Cell, log: multiset<string>)

  function Run(c: Cell, es: seq<Event>): Trace
    decreases |es|
  {
    if |es| == 0 then Trace(c, multiset{})
    else
      var s := Apply(c, es[0]);
      var t := Run(s.cell, es[1..]);
      Trace(t.cell, multiset(s.captured) + t.log)
  }

  /** No event in `es` is an entry of `uid`. */
  predicate NoEntry(es: seq<Event>, uid: string) {
    forall i :: 0 <= i < |es| ==> es[i] != Entered(uid)
  }

  /** No event in `es` is `uid` leaving. */
  predicate NoExit(es: seq<Event>, uid: string) {
    forall i :: 0 <= i < |es| ==> es[i] != Left(uid)
  }

  /** 1 when `uid` is waiting in the queue, 0 otherwise. */
  function Pending(c: Cell, uid: string): nat {
    if uid in c.queued then 1 else 0
  }

  /**
   * Without a fresh entry, a uid is captured at most as often as it was
   * pending, never both captured and still pending, and, if it does not
   * leave either, it is either still pending or captured exactly once.
   */
  lemma {:induction false} CapturedAtMostOnce(c: Cell, es: seq<Event>, uid: string)
    requires NoEntry(es, uid)
    ensures Run(c, es).log[uid] + Pending(Run(c, es).cell, uid) <= Pending(c, uid)
    ensures NoExit(es, uid) ==> Run(c, es).log[uid] + Pending(Run(c, es).cell, uid) == Pending(c, uid)
    decreases |es|
  {
    if |es| > 0 {
      var s := Apply(c, es[0]);
      assert NoEntry(es[1..], uid) by {
        forall i | 0 <= i < |es[1..]| ensures es[1..][i] != Entered(uid) {
          assert es[1..][i] == es[i + 1];
        }
      }
      assert NoExit(es, uid) ==> NoExit(es[1..], uid) by {
        if NoExit(es, uid) {
          forall i | 0 <= i < |es[1..]| ensures es[1..][i] != Left(uid) {
            assert es[1..][i] == es[i + 1];
          }
        }
      }
      CapturedAtMostOnce(s.cell, es[1..], uid);
      assert es[0] != Entered(uid);
      assert multiset(s.captured)[uid] + Pending(s.cell, uid) <= Pending(c, uid);
      assert es[0] != Left(uid) ==> multiset(s.captured)[uid] + Pending(s.cell, uid) == Pending(c, uid);
    }
  }

  /**
   * An object that leaves and does not enter again is never captured
   * afterwards, however the cell's gate opens and closes.
   */
  lemma NeverCapturedAfterLeaving(c: Cell, uid: string, es: seq<Event>)
    requires NoEntry(es, uid)
    ensures uid !in Run(c, [Left(uid)] + es).log
  {
    var l := Leave(c, uid);
    assert ([Left(uid)] + es)[1..] == es;
    CapturedAtMostOnce(l, es, uid);
  }

  /** An active cell has nothing queued. */
  predicate Settled(c: Cell) {
    c.active ==> c.queued == {}
  }

  /**
   * Frames, entries, exits and zone callbacks keep a cell settled; only the
   * owner forcing `active` on can leave an active cell with a queue, which
   * then waits for the next frame.
   */
  lemma {:induction false} SettledUnlessForcedOn(c: Cell, es: seq<Event>)
    requires Settled(c)
    requires forall i :: 0 <= i < |es| ==> es[i] != Forced(true)
    ensures Settled(Run(c, es).cell)
    decreases |es|
  {
    if |es| > 0 {
      SettledUnlessForcedOn(Apply(c, es[0]).cell, es[1..]);
    }
  }

  /** Forcing a cell on while its queue holds a uid leaves it active but unsettled. */
  lemma ForcedOnCanUnsettle(c: Cell, uid: string)
    requires uid in c.queued
    ensures !Settled(Run(c, [Forced(true)]).cell)
  {
  }

  /**
   * The bottom ring alone decides the gate: cells that differ only in their
   * top ring or in their previous `active` value step to the same gate,
   * queue and captures.
   */
  lemma GateIgnoresTopAndPrevious(c: Cell, d: Cell, dt: real)
    requires c.bottom == d.bottom && c.queued == d.queued
    ensures Step(c, dt).cell.active == Step(d, dt).cell.active
    ensures Step(c, dt).cell.queued == Step(d, dt).cell.queued
    ensures Step(c, dt).captured == Step(d, dt).captured
  {
  }

  /** Running two sequences of events is running the first, then the second from where it left off. */
  lemma {:induction false} RunAppend(c: Cell, a: seq<Event>, b: seq<Event>)
    ensures Run(c, a + b).cell == Run(Run(c, a).cell, b).cell
    ensures Run(c, a + b).log == Run(c, a).log + Run(Run(c, a).cell, b).log
    decreases |a|
  {
    if |a| > 0 {
      assert (a + b)[0] == a[0];
      assert (a + b)[1..] == a[1..] + b;
      RunAppend(Apply(c, a[0]).cell, a[1..], b);
    } else {
      assert a + b == b;
    }
  }

  /** The run of a single event is that event's effect. */
  lemma RunOne(c: Cell, e: Event)
    ensures Run(c, [e]).cell == Apply(c, e).cell
    ensures Run(c, [e]).log == multiset(Apply(c, e).captured)
  {
    assert [e][1..] == [];
  }

  /** A cell whose bottom ring is new, whatever it has queued, stays shut for two frames of `RezDuration` and admits its queue on the third. */
  lemma GateOpensOnThirdFrame(c: Cell, dt: real)
    requires c.bottom == Rings.NewFromPoint(BottomRingHeight, RingRadius)
    requires dt == Rings.RezDuration
    ensures !Step(c, dt).cell.active
    ensures !Step(Step(c, dt).cell, dt).cell.active
    ensures Step(Step(Step(c, dt).cell, dt).cell, dt).captured == c.queued
  {
    Rings.IdleOnThirdQuarterFrame(BottomRingHeight, RingRadius);
    var c1 := Step(c, dt).cell;
    var c2 := Step(c1, dt).cell;
    assert c1.bottom == Rings.Step(c.bottom, dt);
    assert c2.bottom == Rings.Step(c1.bottom, dt);
    assert c2.queued == c.queued;
  }

  /**
   * A new cell's gate opens on its third frame of `RezDuration`: an object
   * `o` that entered and left before then is never captured, and an object
   * `p` that entered and stayed is captured on that frame, once.
   */
  lemma AdmissionScenario(height: real, o: string, p: string, dt: real)
    requires o != p && dt == Rings.RezDuration
    ensures Run(New(height), [Entered(o), Left(o), Entered(p), Tick(dt), Tick(dt)]).log == multiset{}
    ensures Run(New(height), [Entered(o), Left(o), Entered(p), Tick(dt), Tick(dt), Tick(dt)]).log
            == multiset{p}
  {
    NothingBeforeThirdFrame(height, o, p, dt);
    AdmittedOnThirdFrame(height, o, p, dt);
  }

  /** The scenario's first two frames capture nothing. */
  lemma NothingBeforeThirdFrame(height: real, o: string, p: string, dt: real)
    requires o != p && dt == Rings.RezDuration
    ensures Run(New(height), [Entered(o), Left(o), Entered(p), Tick(dt), Tick(dt)]).log == multiset{}
  {
    QueuedScenario(New(height).(queued := {p}), dt);
    ScenarioTwoFrames(height, o, p, dt);
  }

  /** The scenario's third frame captures `p`, once. */
  lemma AdmittedOnThirdFrame(height: real, o: string, p: string, dt: real)
    requires o != p && dt == Rings.RezDuration
    ensures Run(New(height), [Entered(o), Left(o), Entered(p), Tick(dt), Tick(dt), Tick(dt)]).log
            == multiset{p}
  {
    var c3 := New(height).(queued := {p});
    var six := [Entered(o), Left(o), Entered(p), Tick(dt), Tick(dt), Tick(dt)];
    assert Run(New(height), six).log == multiset(c3.queued) by {
      QueuedScenario(c3, dt);
      ScenarioThreeFrames(height, o, p, dt);
    }
    assert multiset(c3.queued) == multiset{p};
  }

  /** A cell with a new bottom ring logs nothing for two frames of `RezDuration` and its whole queue on the third. */
  lemma QueuedScenario(c: Cell, dt: real)
    requires c.bottom == Rings.NewFromPoint(BottomRingHeight, RingRadius)
    requires dt == Rings.RezDuration
    ensures Run(c, [Tick(dt), Tick(dt)]).log == multiset{}
    ensures Run(c, [Tick(dt), Tick(dt), Tick(dt)]).log == multiset(c.queued)
  {
    GateOpensOnThirdFrame(c, dt);
    FrameScenario(c, dt);
  }

  /** The scenario's first five events log what two frames from the queued cell log. */
  lemma ScenarioTwoFrames(height: real, o: string, p: string, dt: real)
    requires o != p
    ensures Run(New(height), [Entered(o), Left(o), Entered(p), Tick(dt), Tick(dt)]).log
         == Run(New(height).(queued := {p}), [Tick(dt), Tick(dt)]).log
  {
    ScenarioSplit(height, o, p, [Tick(dt), Tick(dt)]);
    assert [Entered(o), Left(o), Entered(p)] + [Tick(dt), Tick(dt)]
        == [Entered(o), Left(o), Entered(p), Tick(dt), Tick(dt)];
  }

  /** The scenario's six events log what three frames from the queued cell log. */
  lemma ScenarioThreeFrames(height: real, o: string, p: string, dt: real)
    requires o != p
    ensures Run(New(height), [Entered(o), Left(o), Entered(p), Tick(dt), Tick(dt), Tick(dt)]).log
         == Run(New(height).(queued := {p}), [Tick(dt), Tick(dt), Tick(dt)]).log
  {
    ScenarioSplit(height, o, p, [Tick(dt), Tick(dt), Tick(dt)]);
    assert [Entered(o), Left(o), Entered(p)] + [Tick(dt), Tick(dt), Tick(dt)]
        == [Entered(o), Left(o), Entered(p), Tick(dt), Tick(dt), Tick(dt)];
  }

  /** After the scenario's entries and exit, what follows runs from a new cell with only `p` queued. */
  lemma ScenarioSplit(height: real, o: string, p: string, rest: seq<Event>)
    requires o != p
    ensures Run(New(height), [Entered(o), Left(o), Entered(p)] + rest).log
         == Run(New(height).(queued := {p}), rest).log
  {
    EntryScenario(height, o, p);
    RunAppend(New(height), [Entered(o), Left(o), Entered(p)], rest);
  }

  /** A gate that stays shut for two frames and opens on the third logs nothing, then its queue. */
  lemma FrameScenario(c3: Cell, dt: real)
    requires !Step(c3, dt).cell.active
    requires !Step(Step(c3, dt).cell, dt).cell.active
    requires Step(Step(Step(c3, dt).cell, dt).cell, dt).captured == c3.queued
    ensures Run(c3, [Tick(dt), Tick(dt)]).log == multiset{}
    ensures Run(c3, [Tick(dt), Tick(dt), Tick(dt)]).log == multiset(c3.queued)
  {
    var s1 := Step(c3, dt);
    var s2 := Step(s1.cell, dt);
    var s3 := Step(s2.cell, dt);
    assert s1.captured == {} && s2.captured == {};
    ThreeFrames(c3, dt);
  }

  /** Two and three frames of the same length, unrolled into single steps. */
  lemma ThreeFrames(c: Cell, dt: real)
    ensures Run(c, [Tick(dt), Tick(dt)]).log
         == multiset(Step(c, dt).captured) + multiset(Step(Step(c, dt).cell, dt).captured)
    ensures Run(c, [Tick(dt), Tick(dt), Tick(dt)]).log
         == multiset(Step(c, dt).captured) + multiset(Step(Step(c, dt).cell, dt).captured)
          + multiset(Step(Step(Step(c, dt).cell, dt).cell, dt).captured)
  {
    var c1 := Step(c, dt).cell;
    var c2 := Step(c1, dt).cell;
    RunOne(c2, Tick(dt));
    assert [Tick(dt), Tick(dt)][1..] == [Tick(dt)];
    assert [Tick(dt), Tick(dt), Tick(dt)][1..] == [Tick(dt), Tick(dt)];
    assert Run(c, [Tick(dt), Tick(dt)]).log == multiset(Step(c, dt).captured) + Run(c1, [Tick(dt)]).log;
    RunOne(c1, Tick(dt));
    assert Run(c, [Tick(dt), Tick(dt), Tick(dt)]).log
        == multiset(Step(c, dt).captured) + Run(c1, [Tick(dt), Tick(dt)]).log;
    assert Run(c1, [Tick(dt), Tick(dt)]).log == multiset(Step(c1, dt).captured) + Run(c2, [Tick(dt)]).log;
  }

  /** The entries and exit of the scenario, before any frame: only `p` is left queued and nothing is captured. */
  lemma EntryScenario(height: real, o: string, p: string)
    requires o != p
    ensures Run(New(height), [Entered(o), Left(o), Entered(p)]).cell == New(height).(queued := {p})
    ensures Run(New(height), [Entered(o), Left(o), Entered(p)]).log == multiset{}
  {
    var c0 := New(height);
    EnterThenLeave(c0, o);
    RunOne(c0, Entered(p));
    RunAppend(c0, [Entered(o), Left(o)], [Entered(p)]);
    assert [Entered(o), Left(o)] + [Entered(p)] == [Entered(o), Left(o), Entered(p)];
  }

  /** An inactive cell with nothing queued is back where it started after an object enters and leaves. */
  lemma EnterThenLeave(c: Cell, o: string)
    requires !c.active && c.queued == {}
    ensures Run(c, [Entered(o), Left(o)]).cell == c
    ensures Run(c, [Entered(o), Left(o)]).log == multiset{}
  {
    var c1 := c.(queued := {o});
    RunOne(c, Entered(o));
    RunOne(c1, Left(o));
    assert c1.queued - {o} == {};
    RunAppend(c, [Entered(o)], [Left(o)]);
    assert [Entered(o)] + [Left(o)] == [Entered(o), Left(o)];
  }
}
