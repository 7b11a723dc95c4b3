/**
  Open-loop pan and tilt: an estimate in degrees against the units actually sent to the motor.

  `motor` stands for where the commands have taken the motor since it was last sent home. Rounding, steps
  the estimate does not know of, and calls that move the motor and then raise all make it drift from the
  estimate; the ledger says by how much.
*/
module Ptz {
  import opened Common

  /** To the nearest integer, ties to the even one. */
  function RoundHalfEven(r: real): int {
    var f := r.Floor;
    var d := r - f as real;
    if d < 0.5 || (d == 0.5 && f % 2 == 0) then f else f + 1
  }

  function Abs(r: real): real {
    if r < 0.0 then -r else r
  }

  lemma RoundIsNearest(r: real, n: int)
    ensures Abs(RoundHalfEven(r) as real - r) <= 0.5
    ensures Abs(RoundHalfEven(r) as real - r) <= Abs(n as real - r)
    ensures n != RoundHalfEven(r) && Abs(n as real - r) == Abs(RoundHalfEven(r) as real - r) ==>
        RoundHalfEven(r) % 2 == 0
  {
    var f := r.Floor;
    assert f as real <= r < f as real + 1.0;
    if n <= f {
      assert n as real <= f as real;
      assert n < f ==> n as real <= f as real - 1.0;
    } else {
      assert n as real >= f as real + 1.0;
      assert n > f + 1 ==> n as real >= f as real + 2.0;
    }
  }

  /** Within half a unit. */
  predicate Near(n: int, r: real) {
    -0.5 <= n as real - r <= 0.5
  }

  lemma RoundIsNear(r: real)
    ensures Near(RoundHalfEven(r), r)
    ensures RoundHalfEven(r) == 0 <==> -0.5 <= r <= 0.5
  {
    var f := r.Floor;
    assert f as real <= r < f as real + 1.0;
  }

  datatype Axis = Axis(estimate: real, motor: int)

  datatype State = State(pan: Axis, tilt: Axis)

  function ToUnits(u: real, degrees: real): real {
    degrees * u
  }

  lemma Distributes(u: real, a: real, b: real)
    ensures ToUnits(u, a - b) == ToUnits(u, a) - ToUnits(u, b)
    ensures ToUnits(u, 0.0) == 0.0
  {
  }

  /** What a move sends to the motor of one axis; `u` is the number of units per degree. */
  function Units(u: real, a: Axis, target: real): int {
    RoundHalfEven(ToUnits(u, target - a.estimate))
  }

  lemma UnitsAreNear(u: real, a: Axis, target: real)
    ensures Near(Units(u, a, target), (target - a.estimate) * u)
    ensures Units(u, a, target) == 0 <==> -0.5 <= (target - a.estimate) * u <= 0.5
  {
    RoundIsNear(ToUnits(u, target - a.estimate));
  }

  function Moved(a: Axis, units: int): Axis {
    a.(motor := a.motor + units)
  }

  function Arrived(u: real, a: Axis, target: real): Axis {
    Axis(target, a.motor + Units(u, a, target))
  }

  /** No call is made when neither axis has to move. */
  predicate Succeeds(u: real, s: State, pan: real, tilt: real, call: Call) {
    call == Works || (Units(u, s.pan, pan) == 0 && Units(u, s.tilt, tilt) == 0)
  }

  function MoveTo(u: real, s: State, pan: real, tilt: real, call: Call): State {
    if Succeeds(u, s, pan, tilt, call) then State(Arrived(u, s.pan, pan), Arrived(u, s.tilt, tilt))
    else if call == RaisesBefore then s
    else State(Moved(s.pan, Units(u, s.pan, pan)), Moved(s.tilt, Units(u, s.tilt, tilt)))
  }

  /** `x` and `y` are the units asked for, `dx` and `dy` how far the motor has gone. */
  predicate IsMove(x: real, y: real, call: Call, ok: bool, dx: int, dy: int) {
    var none := -0.5 <= x <= 0.5 && -0.5 <= y <= 0.5;
    && (ok <==> call == Works || none)
    && (none || call == RaisesBefore ==> dx == 0 && dy == 0)
    && (call != RaisesBefore ==> Near(dx, x) && Near(dy, y))
  }

  /**
    One command for both axes, to within half a unit of what is asked for; none if that is nothing on either,
    and then nothing can fail. The target becomes the estimate unless the command raises.
  */
  lemma MoveIsMove(u: real, s: State, pan: real, tilt: real, call: Call)
    ensures var t := MoveTo(u, s, pan, tilt, call);
            IsMove((pan - s.pan.estimate) * u, (tilt - s.tilt.estimate) * u, call, Succeeds(u, s, pan, tilt, call),
                   t.pan.motor - s.pan.motor, t.tilt.motor - s.tilt.motor)
            && (t.pan.estimate, t.tilt.estimate)
               == if Succeeds(u, s, pan, tilt, call) then (pan, tilt) else (s.pan.estimate, s.tilt.estimate)
  {
    UnitsAreNear(u, s.pan, pan);
    UnitsAreNear(u, s.tilt, tilt);
  }

  class PTZController {
    const unitsPerDegree: real
    var panDeg: real
    var tiltDeg: real
    var motorX: int
    var motorY: int

    ghost function View(): State
      reads this
    {
      State(Axis(panDeg, motorX), Axis(tiltDeg, motorY))
    }

    constructor (unitsPerDegree: real)
      ensures this.unitsPerDegree == unitsPerDegree && View() == State(Axis(0.0, 0), Axis(0.0, 0))
    {
      this.unitsPerDegree := unitsPerDegree;
      panDeg, tiltDeg, motorX, motorY := 0.0, 0.0, 0, 0;
    }

    method MoveTowards(pan: real, tilt: real, call: Call) returns (ok: bool)
      modifies this
      ensures View() == MoveTo(unitsPerDegree, old(View()), pan, tilt, call)
      ensures ok == Succeeds(unitsPerDegree, old(View()), pan, tilt, call)
      ensures ok ==> panDeg == pan && tiltDeg == tilt
      ensures !ok ==> panDeg == old(panDeg) && tiltDeg == old(tiltDeg)
    {
      var deltaPan := pan - panDeg;
      var deltaTilt := tilt - tiltDeg;
      var x := RoundHalfEven(ToUnits(unitsPerDegree, deltaPan));
      var y := RoundHalfEven(ToUnits(unitsPerDegree, deltaTilt));
      ok := true;
      if x != 0 || y != 0 {
        if call != RaisesBefore {
          motorX, motorY := motorX + x, motorY + y;
        }
        ok := call == Works;
      }
      if ok {
        panDeg, tiltDeg := pan, tilt;
      }
    }

    /** The motor is sent home before the lock is taken; the estimate is reset under it. */
    method SendHome(call: Call) returns (ok: bool)
      modifies this`motorX, this`motorY
      ensures ok == (call == Works)
      ensures call == RaisesBefore ==> motorX == old(motorX) && motorY == old(motorY)
      ensures call != RaisesBefore ==> motorX == 0 && motorY == 0
    {
      if call != RaisesBefore {
        motorX, motorY := 0, 0;
      }
      ok := call == Works;
    }

    method Reset()
      modifies this`panDeg, this`tiltDeg
      ensures panDeg == 0.0 && tiltDeg == 0.0
    {
      panDeg, tiltDeg := 0.0, 0.0;
    }

    method Calibrate(call: Call) returns (ok: bool)
      modifies this
      ensures ok == (call == Works)
      ensures ok ==> View() == State(Axis(0.0, 0), Axis(0.0, 0))
      ensures call == RaisesBefore ==> View() == old(View())
      ensures call == RaisesAfter ==> View() == State(Axis(old(panDeg), 0), Axis(old(tiltDeg), 0))
    {
      ok := SendHome(call);
      if ok {
        Reset();
      }
    }
  }

  // ---------- runs ----------

  /** Calibrating is two events, since moves can come between. A nudge moves the motor by steps unknown. */
  datatype Event =
    | Move(pan: real, tilt: real, call: Call)
    | Nudge(x: int, y: int)
    | Home
    | ResetEstimate

  function Next(u: real, s: State, e: Event): State {
    match e
    case Move(pan, tilt, call) => MoveTo(u, s, pan, tilt, call)
    case Nudge(x, y) => State(Moved(s.pan, x), Moved(s.tilt, y))
    case Home => State(Axis(s.pan.estimate, 0), Axis(s.tilt.estimate, 0))
    case ResetEstimate => State(Axis(0.0, s.pan.motor), Axis(0.0, s.tilt.motor))
  }

  /** Since the motor was last home: moves that arrived, and motion per axis that the estimate does not know of. */
  datatype Ledger = Ledger(moves: nat, lostPan: real, lostTilt: real)

  function NextLedger(u: real, s: State, l: Ledger, e: Event): Ledger {
    match e
    case Move(pan, tilt, call) =>
      if Succeeds(u, s, pan, tilt, call) then l.(moves := l.moves + 1)
      else if call == RaisesBefore then l
      else Ledger(l.moves, l.lostPan + Units(u, s.pan, pan) as real, l.lostTilt + Units(u, s.tilt, tilt) as real)
    case Nudge(x, y) => Ledger(l.moves, l.lostPan + x as real, l.lostTilt + y as real)
    case Home => Ledger(0, -ToUnits(u, s.pan.estimate), -ToUnits(u, s.tilt.estimate))
    case ResetEstimate => Ledger(l.moves, l.lostPan + ToUnits(u, s.pan.estimate), l.lostTilt + ToUnits(u,
        s.tilt.estimate))
  }

  function Run(u: real, es: seq<Event>): State {
    if es == [] then State(Axis(0.0, 0), Axis(0.0, 0)) else Next(u, Run(u, es[..|es| - 1]), es[|es| - 1])
  }

  function RunLedger(u: real, es: seq<Event>): Ledger {
    if es == [] then Ledger(0, 0.0, 0.0)
    else NextLedger(u, Run(u, es[..|es| - 1]), RunLedger(u, es[..|es| - 1]), es[|es| - 1])
  }

  function Drift(u: real, a: Axis): real {
    ToUnits(u, a.estimate) - a.motor as real
  }

  predicate Within(u: real, a: Axis, lost: real, moves: nat) {
    Abs(Drift(u, a) + lost) <= moves as real / 2.0
  }

  lemma MoveWithin(u: real, a: Axis, lost: real, moves: nat, target: real)
    requires Within(u, a, lost, moves)
    ensures Within(u, Arrived(u, a, target), lost, moves + 1)
  {
    RoundIsNearest(ToUnits(u, target - a.estimate), 0);
    Distributes(u, target, a.estimate);
  }

  lemma ShiftWithin(u: real, a: Axis, lost: real, moves: nat, units: int)
    requires Within(u, a, lost, moves)
    ensures Within(u, Moved(a, units), lost + units as real, moves)
  {
    assert (a.motor + units) as real == a.motor as real + units as real;
  }

  lemma HomeWithin(u: real, estimate: real)
    ensures Within(u, Axis(estimate, 0), -ToUnits(u, estimate), 0)
  {
  }

  lemma ResetWithin(u: real, a: Axis, lost: real, moves: nat)
    requires Within(u, a, lost, moves)
    ensures Within(u, Axis(0.0, a.motor), lost + ToUnits(u, a.estimate), moves)
  {
    Distributes(u, 0.0, 0.0);
  }

  lemma StepWithin(u: real, s: State, l: Ledger, e: Event)
    requires Within(u, s.pan, l.lostPan, l.moves) && Within(u, s.tilt, l.lostTilt, l.moves)
    ensures var t, m := Next(u, s, e), NextLedger(u, s, l, e);
            Within(u, t.pan, m.lostPan, m.moves) && Within(u, t.tilt, m.lostTilt, m.moves)
  {
    match e
    case Move(pan, tilt, call) =>
      if Succeeds(u, s, pan, tilt, call) {
        MoveWithin(u, s.pan, l.lostPan, l.moves, pan);
        MoveWithin(u, s.tilt, l.lostTilt, l.moves, tilt);
      } else if call == RaisesAfter {
        ShiftWithin(u, s.pan, l.lostPan, l.moves, Units(u, s.pan, pan));
        ShiftWithin(u, s.tilt, l.lostTilt, l.moves, Units(u, s.tilt, tilt));
      }
    case Nudge(x, y) =>
      ShiftWithin(u, s.pan, l.lostPan, l.moves, x);
      ShiftWithin(u, s.tilt, l.lostTilt, l.moves, y);
    case Home =>
      HomeWithin(u, s.pan.estimate);
      HomeWithin(u, s.tilt.estimate);
    case ResetEstimate =>
      ResetWithin(u, s.pan, l.lostPan, l.moves);
      ResetWithin(u, s.tilt, l.lostTilt, l.moves);
  }

  /**
    In every run, the estimate and the motor differ by what was lost and by at most half a unit for each
    move since the motor was last home.
  */
  lemma {:induction false} DriftBound(u: real, es: seq<Event>)
    ensures var s, l := Run(u, es), RunLedger(u, es);
            Within(u, s.pan, l.lostPan, l.moves) && Within(u, s.tilt, l.lostTilt, l.moves)
  {
    if es != [] {
      DriftBound(u, es[..|es| - 1]);
      StepWithin(u, Run(u, es[..|es| - 1]), RunLedger(u, es[..|es| - 1]), es[|es| - 1]);
    }
  }

  /** Moves of which none moves the motor and then raises. */
  predicate IsPlainMove(e: Event) {
    e.Move? && e.call != RaisesAfter
  }

  lemma RunMore(u: real, es: seq<Event>, e: Event)
    ensures Run(u, es + [e]) == Next(u, Run(u, es), e)
    ensures RunLedger(u, es + [e]) == NextLedger(u, Run(u, es), RunLedger(u, es), e)
  {
    assert (es + [e])[..|es|] == es;
  }

  // ---------- calibrating ----------

  function Motors(s: State): (int, int) {
    (s.pan.motor, s.tilt.motor)
  }

  /** The units that an event sends to the motor, per axis. */
  function Sent(u: real, s: State, e: Event): (int, int) {
    match e
    case Move(pan, tilt, call) =>
      if Succeeds(u, s, pan, tilt, call) || call == RaisesAfter then (Units(u, s.pan, pan), Units(u, s.tilt, tilt))
      else (0, 0)
    case Nudge(x, y) => (x, y)
    case _ => (0, 0)
  }

  /** The sum of what was sent in the course of `es`, which follow on `start`, since it last went home. */
  function SentSinceHome(u: real, start: seq<Event>, es: seq<Event>): (int, int) {
    if es == [] then (0, 0)
    else
      var init, e := es[..|es| - 1], es[|es| - 1];
      MotorsAfter(SentSinceHome(u, start, init), e, Sent(u, Run(u, start + init), e))
  }

  function MotorsAfter(sofar: (int, int), e: Event, sent: (int, int)): (int, int) {
    if e == Home then (0, 0) else (sofar.0 + sent.0, sofar.1 + sent.1)
  }

  lemma MoveMovesMotor(u: real, s: State, e: Event)
    ensures Motors(Next(u, s, e)) == MotorsAfter(Motors(s), e, Sent(u, s, e))
  {
  }

  lemma SentMore(u: real, start: seq<Event>, es: seq<Event>, e: Event)
    ensures SentSinceHome(u, start, es + [e])
         == MotorsAfter(SentSinceHome(u, start, es), e, Sent(u, Run(u, start + es), e))
  {
    var all := es + [e];
    assert all[..|all| - 1] == es && all[|all| - 1] == e;
  }

  lemma MotorAfter(u: real, es: seq<Event>, e: Event)
    ensures Motors(Run(u, es + [e])) == MotorsAfter(Motors(Run(u, es)), e, Sent(u, Run(u, es), e))
  {
    RunMore(u, es, e);
    MoveMovesMotor(u, Run(u, es), e);
  }

  lemma BothAfter(u: real, start: seq<Event>, es: seq<Event>, e: Event)
    requires Motors(Run(u, start + es)) == SentSinceHome(u, start, es)
    ensures Motors(Run(u, start + (es + [e]))) == SentSinceHome(u, start, es + [e])
  {
    assert start + (es + [e]) == (start + es) + [e];
    MotorAfter(u, start + es, e);
    SentMore(u, start, es, e);
  }

  lemma {:induction false} MotorAddsUp(u: real, start: seq<Event>, mid: seq<Event>)
    requires Motors(Run(u, start)) == (0, 0)
    ensures Motors(Run(u, start + mid)) == SentSinceHome(u, start, mid)
  {
    if mid == [] {
      assert start + mid == start;
    } else {
      var init, e := mid[..|mid| - 1], mid[|mid| - 1];
      MotorAddsUp(u, start, init);
      BothAfter(u, start, init, e);
      assert mid == init + [e];
    }
  }

  lemma MotorsHome(u: real, before: seq<Event>)
    ensures Motors(Run(u, before + [Home])) == (0, 0)
  {
    RunMore(u, before, Home);
  }

  lemma DriftAtZero(u: real, motor: int)
    ensures Drift(u, Axis(0.0, motor)) == -(motor as real)
  {
    Distributes(u, 0.0, 0.0);
  }

  /**
    A calibration leaves the estimate off by just what was sent to the motor between its two halves, or, if
    another calibration sent the motor home in between, since that. It resynchronises the two iff that cancels
    out on both axes.
  */
  lemma CalibrationMissesBy(u: real, before: seq<Event>, mid: seq<Event>)
    ensures var (x, y) := SentSinceHome(u, before + [Home], mid);
            var s := Run(u, before + [Home] + mid + [ResetEstimate]);
            Drift(u, s.pan) == -(x as real) && Drift(u, s.tilt) == -(y as real)
            && (Drift(u, s.pan) == 0.0 && Drift(u, s.tilt) == 0.0 <==> x == 0 && y == 0)
  {
    MotorsHome(u, before);
    MotorAddsUp(u, before + [Home], mid);
    RunMore(u, before + [Home] + mid, ResetEstimate);
    var s := Run(u, before + [Home] + mid);
    DriftAtZero(u, s.pan.motor);
    DriftAtZero(u, s.tilt.motor);
  }

  lemma PlainMoveWithin(u: real, s: State, e: Event, lostPan: real, lostTilt: real, n: nat)
    requires IsPlainMove(e)
    requires Within(u, s.pan, lostPan, n) && Within(u, s.tilt, lostTilt, n)
    ensures var t := Next(u, s, e); Within(u, t.pan, lostPan, n + 1) && Within(u, t.tilt, lostTilt, n + 1)
  {
    MoveWithin(u, s.pan, lostPan, n, e.pan);
    MoveWithin(u, s.tilt, lostTilt, n, e.tilt);
  }

  lemma {:induction false} PlainMovesWithin(u: real, start: seq<Event>, moves: seq<Event>, lostPan: real,
                                            lostTilt: real)
    requires forall e | e in moves :: IsPlainMove(e)
    requires var s := Run(u, start); Within(u, s.pan, lostPan, 0) && Within(u, s.tilt, lostTilt, 0)
    ensures var s := Run(u, start + moves); Within(u, s.pan, lostPan, |moves|) && Within(u, s.tilt, lostTilt, |moves|)
  {
    if moves == [] {
      assert start + moves == start;
    } else {
      var k := |moves| - 1;
      PlainMovesWithin(u, start, moves[..k], lostPan, lostTilt);
      assert start + moves == start + moves[..k] + [moves[k]];
      RunMore(u, start + moves[..k], moves[k]);
      PlainMoveWithin(u, Run(u, start + moves[..k]), moves[k], lostPan, lostTilt, k);
    }
  }

  /** Moving on does not mend it: n moves later the offset is still there, to within n/2 units. */
  lemma OffsetPersists(u: real, before: seq<Event>, mid: seq<Event>, moves: seq<Event>)
    requires forall e | e in moves :: IsPlainMove(e)
    ensures var sent := SentSinceHome(u, before + [Home], mid);
            var s := Run(u, before + [Home] + mid + [ResetEstimate] + moves);
            Within(u, s.pan, sent.0 as real, |moves|) && Within(u, s.tilt, sent.1 as real, |moves|)
  {
    CalibrationMissesBy(u, before, mid);
    var sent := SentSinceHome(u, before + [Home], mid);
    PlainMovesWithin(u, before + [Home] + mid + [ResetEstimate], moves, sent.0 as real, sent.1 as real);
  }

  /** After a calibration that nothing interrupts, n moves leave the estimate within n/2 units of the motor. */
  lemma SerialDriftBound(u: real, before: seq<Event>, moves: seq<Event>)
    requires forall e | e in moves :: IsPlainMove(e)
    ensures var s := Run(u, before + [Home] + [ResetEstimate] + moves);
            Abs(Drift(u, s.pan)) <= |moves| as real / 2.0 && Abs(Drift(u, s.tilt)) <= |moves| as real / 2.0
  {
    OffsetPersists(u, before, [], moves);
    assert before + [Home] + [] == before + [Home];
  }

  /** One move between leaves the calibration off by it, unless it was for less than the motor can do. */
  lemma InterruptedCalibration(u: real, before: seq<Event>, pan: real, tilt: real)
    ensures var s, t := Run(u, before), Run(u, before + [Home] + [Move(pan, tilt, Works)] + [ResetEstimate]);
            Drift(u, t.pan) == -(Units(u, s.pan, pan) as real)
            && Drift(u, t.tilt) == -(Units(u, s.tilt, tilt) as real)
            && (Drift(u, t.pan) == 0.0 <==> Units(u, s.pan, pan) == 0)
            && (Drift(u, t.tilt) == 0.0 <==> Units(u, s.tilt, tilt) == 0)
  {
    ThreeMore(u, before, Home, Move(pan, tilt, Works), ResetEstimate);
    MoveBetween(u, Run(u, before), pan, tilt);
    DriftAtZero(u, Units(u, Run(u, before).pan, pan));
    DriftAtZero(u, Units(u, Run(u, before).tilt, tilt));
  }

  /** In the ledger, such a move counts as lost with what it was for before rounding. */
  lemma InterruptedLedger(u: real, before: seq<Event>, pan: real, tilt: real)
    ensures var s := Run(u, before);
            RunLedger(u, before + [Home] + [Move(pan, tilt, Works)] + [ResetEstimate])
            == Ledger(1, ToUnits(u, pan - s.pan.estimate), ToUnits(u, tilt - s.tilt.estimate))
  {
    var homed, moved := before + [Home], before + [Home] + [Move(pan, tilt, Works)];
    LedgerAfterHome(u, before);
    LedgerAfterMove(u, homed, pan, tilt);
    LedgerAfterReset(u, moved);
    Distributes(u, pan, Run(u, before).pan.estimate);
    Distributes(u, tilt, Run(u, before).tilt.estimate);
  }

  lemma LedgerAfterHome(u: real, es: seq<Event>)
    ensures var s := Run(u, es);
            RunLedger(u, es + [Home]) == Ledger(0, -ToUnits(u, s.pan.estimate), -ToUnits(u, s.tilt.estimate))
  {
    RunMore(u, es, Home);
  }

  lemma LedgerAfterMove(u: real, es: seq<Event>, pan: real, tilt: real)
    ensures var l, e := RunLedger(u, es), Move(pan, tilt, Works);
            RunLedger(u, es + [e]) == Ledger(l.moves + 1, l.lostPan, l.lostTilt)
            && Run(u, es + [e]).pan.estimate == pan && Run(u, es + [e]).tilt.estimate == tilt
  {
    RunMore(u, es, Move(pan, tilt, Works));
  }

  lemma LedgerAfterReset(u: real, es: seq<Event>)
    ensures var s, l := Run(u, es), RunLedger(u, es);
            RunLedger(u, es + [ResetEstimate])
            == Ledger(l.moves, l.lostPan + ToUnits(u, s.pan.estimate), l.lostTilt + ToUnits(u, s.tilt.estimate))
  {
    RunMore(u, es, ResetEstimate);
  }

  lemma ThreeMore(u: real, es: seq<Event>, e: Event, f: Event, g: Event)
    ensures Run(u, es + [e] + [f] + [g]) == Next(u, Next(u, Next(u, Run(u, es), e), f), g)
  {
    RunMore(u, es, e);
    RunMore(u, es + [e], f);
    RunMore(u, es + [e] + [f], g);
  }

  lemma MoveBetween(u: real, s: State, pan: real, tilt: real)
    ensures var s1 := Next(u, s, Home);
            var s2 := Next(u, s1, Move(pan, tilt, Works));
            s1 == State(Axis(s.pan.estimate, 0), Axis(s.tilt.estimate, 0))
            && s2 == State(Axis(pan, Units(u, s.pan, pan)), Axis(tilt, Units(u, s.tilt, tilt)))
            && Next(u, s2, ResetEstimate)
               == State(Axis(0.0, Units(u, s.pan, pan)), Axis(0.0, Units(u, s.tilt, tilt)))
  {
  }

  /** Three degrees, one unit each, in between: the motor is at 3, the estimate says 0. */
  lemma CalibrationOffByThree()
    ensures Drift(1.0, Run(1.0, [] + [Home] + [Move(3.0, 0.0, Works)] + [ResetEstimate]).pan) == -3.0
  {
    InterruptedCalibration(1.0, [], 3.0, 0.0);
    RunEmpty(1.0);
    assert RoundHalfEven(3.0) == 3;
  }

  lemma RunEmpty(u: real)
    ensures Run(u, []) == State(Axis(0.0, 0), Axis(0.0, 0))
  {
  }

  /** k steps of half a unit, in degrees */
  function HalfUnits(u: real, k: nat): real
    requires u != 0.0
  {
    k as real * 0.5 / u
  }

  function HalfUnitSteps(u: real, n: nat): seq<Event>
    requires u != 0.0
  {
    seq(n, k requires 0 <= k < n => Move(HalfUnits(u, k + 1), 0.0, Works))
  }

  /** The bound is attained: in steps of half a unit the estimate goes anywhere and the motor stays put. */
  lemma {:induction false} CreepingAttainsTheBound(u: real, n: nat)
    requires u != 0.0
    ensures Run(u, HalfUnitSteps(u, n)) == State(Axis(HalfUnits(u, n), 0), Axis(0.0, 0))
    ensures Drift(u, Run(u, HalfUnitSteps(u, n)).pan) == n as real / 2.0
  {
    HalfStep(u, n);
    if n == 0 {
      assert HalfUnitSteps(u, 0) == [];
    } else {
      var step := Move(HalfUnits(u, n), 0.0, Works);
      CreepingAttainsTheBound(u, n - 1);
      assert HalfUnitSteps(u, n) == HalfUnitSteps(u, n - 1) + [step];
      RunMore(u, HalfUnitSteps(u, n - 1), step);
      CreepOnce(u, n);
    }
  }

  lemma CreepOnce(u: real, n: nat)
    requires u != 0.0 && n > 0
    ensures MoveTo(u, State(Axis(HalfUnits(u, n - 1), 0), Axis(0.0, 0)), HalfUnits(u, n), 0.0, Works)
         == State(Axis(HalfUnits(u, n), 0), Axis(0.0, 0))
  {
    HalfStep(u, n);
    HalfStep(u, n - 1);
    Distributes(u, HalfUnits(u, n), HalfUnits(u, n - 1));
    Distributes(u, 0.0, 0.0);
    assert RoundHalfEven(0.5) == 0 && RoundHalfEven(0.0) == 0;
  }

  lemma HalfStep(u: real, n: nat)
    requires u != 0.0
    ensures ToUnits(u, HalfUnits(u, n)) == n as real * 0.5
    ensures HalfUnits(u, 0) == 0.0
  {
  }
}
