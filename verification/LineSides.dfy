/** Which side of a line a point is on, and what turning a line round does to
    everything the detector reports. */
module LineSides {
  import opened Options
  import opened Parts
  import opened LineCrossing
  import opened CrossingDetector

  // ----- sides

  /** The square of the length of a line. */
  function Square(l: Line): real {
    Norm(l.x2 - l.x1, l.y2 - l.y1)
  }

  function Norm(a: real, b: real): real {
    Times(a, a) + Times(b, b)
  }

  function Times(a: real, b: real): real {
    a * b
  }

  /** The point that is s of the way along a line and t of its length to the left. */
  function Beside(l: Line, s: real, t: real): (real, real) {
    (l.x1 + s * (l.x2 - l.x1) - t * (l.y2 - l.y1), l.y1 + s * (l.y2 - l.y1) + t * (l.x2 - l.x1))
  }

  lemma Products(a: real, b: real, s: real, t: real)
    ensures a * (s * b + t * a) - b * (s * a - t * b) == t * (a * a + b * b)
  {}

  /** The side of a point is how far left of the line it is, times the square of
      the line's length, and the negative of that for a flipped line, however far
      along the line the point is. */
  lemma SideExactly(l: Line, s: real, t: real)
    ensures var (x, y) := Beside(l, s, t);
            SideOf(l, x, y) == (if l.flip then -t else t) * Square(l)
  {
    var a, b := l.x2 - l.x1, l.y2 - l.y1;
    var (x, y) := Beside(l, s, t);
    Products(a, b, s, t);
    assert y - l.y1 == s * b + t * a && x - l.x1 == s * a - t * b;
    assert -(t * (a * a + b * b)) == -t * (a * a + b * b);
  }

  /** The left of a line is positive, the right negative, and only the line itself
      has no side; flipping exchanges left and right. */
  lemma SideSign(l: Line, s: real, t: real)
    requires l.x1 != l.x2 || l.y1 != l.y2
    ensures var (x, y) := Beside(l, s, t);
            var left := if l.flip then -t else t;
            && (SideOf(l, x, y) > 0.0 <==> left > 0.0)
            && (SideOf(l, x, y) < 0.0 <==> left < 0.0)
            && (SideOf(l, x, y) == 0.0 <==> left == 0.0)
  {
    hide SideOf, Beside, Norm;
    SideExactly(l, s, t);
    SquarePositive(l.x2 - l.x1, l.y2 - l.y1);
    Scaled(if l.flip then -t else t, Square(l));
  }

  lemma TimesNegated(a: real, b: real)
    ensures Times(-a, -b) == Times(a, b)
  {}

  lemma TimesAbove(a: real, b: real)
    requires a > 0.0 && b > 0.0
    ensures Times(a, b) > 0.0
  {}

  lemma OwnPositive(a: real)
    ensures Times(a, a) >= 0.0 && (a != 0.0 ==> Times(a, a) > 0.0)
  {
    if a == 0.0 {
      assert Times(a, a) == 0.0;
    } else {
      hide Times;
      TimesNegated(a, a);
      if a > 0.0 {
        TimesAbove(a, a);
      } else {
        TimesAbove(-a, -a);
      }
    }
  }

  lemma SquarePositive(a: real, b: real)
    requires a != 0.0 || b != 0.0
    ensures Norm(a, b) > 0.0
  {
    hide Times;
    OwnPositive(a);
    OwnPositive(b);
  }

  lemma Scaled(a: real, b: real)
    requires b > 0.0
    ensures (a * b > 0.0 <==> a > 0.0) && (a * b < 0.0 <==> a < 0.0) && (a * b == 0.0 <==> a == 0.0)
  {}

  // ----- which lines are looked at

  /** The lines of a frame are the active ones, in order. */
  lemma {:induction false} ActiveExactly(lines: seq<Line>)
    ensures PartWhere(Active(lines), lines, set i: nat | i < |lines| && lines[i].active)
  {
    hide PartWhere;
    var all := set i: nat | i < |lines| && lines[i].active;
    if lines == [] {
      NothingWhere<Line>(all);
    } else {
      var init := lines[..|lines| - 1];
      ActiveExactly(init);
      var wanted := set i: nat | i < |init| && init[i].active;
      PartWhereSnoc(Active(init), lines, wanted, all);
    }
  }

  /** Removing a line, or replacing it, leaves those with another id, in order. */
  lemma {:induction false} WithoutExactly(lines: seq<Line>, lineId: string)
    ensures PartWhere(Without(lines, lineId), lines, set i: nat | i < |lines| && lines[i].id != lineId)
  {
    hide PartWhere;
    var all := set i: nat | i < |lines| && lines[i].id != lineId;
    if lines == [] {
      NothingWhere<Line>(all);
    } else {
      var init := lines[..|lines| - 1];
      WithoutExactly(init, lineId);
      var wanted := set i: nat | i < |init| && init[i].id != lineId;
      PartWhereSnoc(Without(init, lineId), lines, wanted, all);
    }
  }

  // ----- turning a line round

  /** Two ways to turn a line round: the flag, and the order of its ends. */
  function Flipped(l: Line): Line {
    l.(flip := !l.flip)
  }

  function Swapped(l: Line): Line {
    l.(x1 := l.x2, y1 := l.y2, x2 := l.x1, y2 := l.y1)
  }

  lemma FlippedNegates(l: Line, x: real, y: real)
    ensures SideOf(Flipped(l), x, y) == -SideOf(l, x, y)
  {}

  lemma SwappedNegates(l: Line, x: real, y: real)
    ensures SideOf(Swapped(l), x, y) == -SideOf(l, x, y)
  {
    assert (l.x1 - l.x2) * (y - l.y2) - (l.y1 - l.y2) * (x - l.x2)
        == -((l.x2 - l.x1) * (y - l.y1) - (l.y2 - l.y1) * (x - l.x1));
  }

  /** Both ways of turning a line round. */
  function Turned(l: Line, swap: bool): Line {
    if swap then Swapped(l) else Flipped(l)
  }

  lemma TurnedNegates(l: Line, swap: bool, x: real, y: real)
    ensures SideOf(Turned(l, swap), x, y) == -SideOf(l, x, y)
  {
    FlippedNegates(l, x, y);
    SwappedNegates(l, x, y);
  }

  function Back(d: Direction): Direction {
    if d == IN then OUT else IN
  }

  /** A state seen from the other side. */
  function Mirrored(s: State): State {
    State(if s.lastSide.Some? then Some(-s.lastSide.value) else None,
          if s.pendingDir.Some? then Some(Back(s.pendingDir.value)) else None, s.pendingCount)
  }

  lemma UpdateMirrored(s: State, side: real, m: int)
    ensures var (t, d) := Update(s, side, m);
            Update(Mirrored(s), -side, m) == (Mirrored(t), if d.Some? then Some(Back(d.value)) else None)
  {}

  // ----- turning one line round for a whole run

  /** The line with this id on this camera, turned round. */
  function TurnLine(l: Line, id: string, swap: bool): Line {
    if l.id == id then Turned(l, swap) else l
  }

  function TurnLines(lines: seq<Line>, id: string, swap: bool): (r: seq<Line>)
    ensures |r| == |lines|
  {
    seq(|lines|, k requires 0 <= k < |lines| => TurnLine(lines[k], id, swap))
  }

  function TurnOp(op: Op, camera: string, id: string, swap: bool): Op {
    match op
    case AddLine(c, line) => if c == camera then AddLine(c, TurnLine(line, id, swap)) else op
    case _ => op
  }

  function TurnOps(ops: seq<Op>, camera: string, id: string, swap: bool): (r: seq<Op>)
    ensures |r| == |ops|
  {
    seq(|ops|, k requires 0 <= k < |ops| => TurnOp(ops[k], camera, id, swap))
  }

  predicate On(key: Key, camera: string, id: string) {
    key.0 == camera && key.1 == id
  }

  function TurnState(key: Key, s: State, camera: string, id: string): State {
    if On(key, camera, id) then Mirrored(s) else s
  }

  /** A crossing of the line, as it is reported when the line is turned round. */
  function TurnCrossing(c: Crossing, camera: string, id: string): Crossing {
    if On(c.key, camera, id) then
      Crossing(c.key, Back(c.direction), if c.eventType == CUSTOMER_ENTERED then CUSTOMER_EXITED else CUSTOMER_ENTERED)
    else c
  }

  function TurnLog(log: seq<Crossing>, camera: string, id: string): (r: seq<Crossing>)
    ensures |r| == |log|
  {
    seq(|log|, k requires 0 <= k < |log| => TurnCrossing(log[k], camera, id))
  }

  ghost predicate TurnedStates(states: map<Key, State>, turned: map<Key, State>, camera: string, id: string) {
    turned.Keys == states.Keys && forall k :: k in states ==> turned[k] == TurnState(k, states[k], camera, id)
  }

  /** What an event is called depends on the direction alone: whatever the type of
      a line, inwards is entering and outwards is leaving. */
  lemma EventTypeExactly(l: Line, d: Direction)
    ensures EventTypeOf(l, d) == if d == IN then CUSTOMER_ENTERED else CUSTOMER_EXITED
  {}

  lemma VisitTurned(states: map<Key, State>, turned: map<Key, State>, at: string, visit: (Line, Seen), camera: string,
                    id: string, swap: bool)
    requires TurnedStates(states, turned, camera, id)
    ensures var (after, log) := Visit(states, at, visit);
            var other := (if at == camera then TurnLine(visit.0, id, swap) else visit.0, visit.1);
            var (after', log') := Visit(turned, at, other);
            TurnedStates(after, after', camera, id) && log' == TurnLog(log, camera, id) && |log| <= 1
  {
    hide Update, SideOf, Mirrored;
    var (l, seen) := visit;
    var key := KeyOf(at, visit);
    var s, side := StateOf(states, key), SideOf(l, seen.x, seen.y);
    StartsMirrored();
    EventTypeExactly(l, IN);
    EventTypeExactly(l, OUT);
    if On(key, camera, id) {
      var turn := Turned(l, swap);
      TurnedNegates(l, swap, seen.x, seen.y);
      UpdateMirrored(s, side, l.minCrossings);
      EventTypeExactly(turn, IN);
      EventTypeExactly(turn, OUT);
      assert StateOf(turned, key) == Mirrored(s);
      assert KeyOf(at, (turn, seen)) == key && turn.minCrossings == l.minCrossings;
      var (t, d) := Update(s, side, l.minCrossings);
      assert Update(Mirrored(s), -side, l.minCrossings) == (Mirrored(t), if d.Some? then Some(Back(d.value)) else None);
      assert Visit(turned, at, (turn, seen)).0 == turned[key := Mirrored(t)];
      var log, other := Visit(states, at, visit).1, Visit(turned, at, (turn, seen)).1;
      assert |other| == |log| && forall k :: 0 <= k < |log| ==> other[k] == TurnCrossing(log[k], camera, id);
      assert other == TurnLog(log, camera, id);
    } else {
      assert StateOf(turned, key) == s;
    }
  }

  lemma StartsMirrored()
    ensures Mirrored(INITIAL) == INITIAL
  {}

  // ----- whole runs

  function TurnVisits(visits: seq<(Line, Seen)>, id: string, swap: bool): (r: seq<(Line, Seen)>)
    ensures |r| == |visits|
  {
    seq(|visits|, k requires 0 <= k < |visits| => (TurnLine(visits[k].0, id, swap), visits[k].1))
  }

  lemma {:induction false} VisitAllTurned(
    states: map<Key, State>, turned: map<Key, State>, at: string, visits: seq<(Line, Seen)>, camera: string,
    id: string, swap: bool)
    requires TurnedStates(states, turned, camera, id)
    ensures var (after, log) := VisitAll(states, at, visits);
            var (after', log') := VisitAll(turned, at, if at == camera then TurnVisits(visits, id, swap) else visits);
            TurnedStates(after, after', camera, id) && log' == TurnLog(log, camera, id)
  {
    hide Visit, TurnedStates, TurnLine;
    if visits != [] {
      var n := |visits| - 1;
      VisitAllTurned(states, turned, at, visits[..n], camera, id, swap);
      assert TurnVisits(visits, id, swap)[..n] == TurnVisits(visits[..n], id, swap);
      var other := if at == camera then TurnVisits(visits, id, swap) else visits;
      var before, log := VisitAll(states, at, visits[..n]).0, VisitAll(states, at, visits[..n]).1;
      var before' := VisitAll(turned, at, other[..n]).0;
      VisitTurned(before, before', at, visits[n], camera, id, swap);
      TurnLogSplit(log, Visit(before, at, visits[n]).1, camera, id);
    }
  }

  lemma TurnLogSplit(a: seq<Crossing>, b: seq<Crossing>, camera: string, id: string)
    ensures TurnLog(a + b, camera, id) == TurnLog(a, camera, id) + TurnLog(b, camera, id)
  {
    hide TurnCrossing;
  }

  lemma TurnLinesSnoc(lines: seq<Line>, id: string, swap: bool)
    requires lines != []
    ensures var n := |lines| - 1;
            TurnLines(lines, id, swap) == TurnLines(lines[..n], id, swap) + [TurnLine(lines[n], id, swap)]
  {
    hide TurnLine;
  }

  lemma {:induction false} ActiveTurned(lines: seq<Line>, id: string, swap: bool)
    ensures Active(TurnLines(lines, id, swap)) == TurnLines(Active(lines), id, swap)
  {
    if lines != [] {
      var n := |lines| - 1;
      ActiveTurned(lines[..n], id, swap);
      TurnLinesSnoc(lines, id, swap);
      var turned := TurnLines(lines, id, swap);
      assert turned[..n] == TurnLines(lines[..n], id, swap);
      if lines[n].active {
        var kept := Active(lines[..n]) + [lines[n]];
        TurnLinesSnoc(kept, id, swap);
        assert kept[..|kept| - 1] == Active(lines[..n]);
      } else {
        assert Active(lines) == Active(lines[..n]);
      }
    }
  }

  lemma {:induction false} WithoutTurned(lines: seq<Line>, lineId: string, id: string, swap: bool)
    ensures Without(TurnLines(lines, id, swap), lineId) == TurnLines(Without(lines, lineId), id, swap)
  {
    if lines != [] {
      var n := |lines| - 1;
      WithoutTurned(lines[..n], lineId, id, swap);
      TurnLinesSnoc(lines, id, swap);
      var turned := TurnLines(lines, id, swap);
      assert turned[..n] == TurnLines(lines[..n], id, swap);
      if lines[n].id != lineId {
        var kept := Without(lines[..n], lineId) + [lines[n]];
        TurnLinesSnoc(kept, id, swap);
        assert kept[..|kept| - 1] == Without(lines[..n], lineId);
      } else {
        assert Without(lines, lineId) == Without(lines[..n], lineId);
      }
    }
  }

  lemma {:induction false} RowTurned(l: Line, visitors: seq<Seen>, id: string, swap: bool)
    ensures Row(TurnLine(l, id, swap), visitors) == TurnVisits(Row(l, visitors), id, swap)
  {
    hide TurnLine;
    if visitors != [] {
      RowTurned(l, visitors[..|visitors| - 1], id, swap);
    }
  }

  lemma {:induction false} VisitsTurned(lines: seq<Line>, visitors: seq<Seen>, id: string, swap: bool)
    ensures Visits(TurnLines(lines, id, swap), visitors) == TurnVisits(Visits(lines, visitors), id, swap)
  {
    hide TurnLine, Row;
    if lines != [] {
      var n := |lines| - 1;
      VisitsTurned(lines[..n], visitors, id, swap);
      TurnLinesSnoc(lines, id, swap);
      assert TurnLines(lines, id, swap)[..n] == TurnLines(lines[..n], id, swap);
      RowTurned(lines[n], visitors, id, swap);
    }
  }

  ghost predicate TurnedDetector(d: Detector, e: Detector, camera: string, id: string, swap: bool) {
    && e.lines.Keys == d.lines.Keys
    && (forall c :: c in d.lines ==>
          e.lines[c] == if c == camera then TurnLines(d.lines[c], id, swap) else d.lines[c])
    && TurnedStates(d.states, e.states, camera, id)
  }

  lemma LinesOfTurned(d: Detector, e: Detector, camera: string, id: string, swap: bool, at: string)
    requires TurnedDetector(d, e, camera, id, swap)
    ensures LinesOf(e, at) == if at == camera then TurnLines(LinesOf(d, at), id, swap) else LinesOf(d, at)
  {
    hide TurnedStates;
    assert TurnLines([], id, swap) == [];
  }

  lemma FrameTurned(d: Detector, e: Detector, at: string, visitors: seq<Seen>, camera: string, id: string, swap: bool)
    requires TurnedDetector(d, e, camera, id, swap)
    ensures var (d', log), (e', log') := Apply(d, Frame(at, visitors)), Apply(e, Frame(at, visitors));
            TurnedDetector(d', e', camera, id, swap) && log' == TurnLog(log, camera, id)
  {
    hide VisitAll, TurnLine, TurnState, Active, Visits, TurnLog, TurnVisits;
    LinesOfTurned(d, e, camera, id, swap, at);
    ActiveTurned(LinesOf(d, at), id, swap);
    VisitsTurned(Active(LinesOf(d, at)), visitors, id, swap);
    VisitAllTurned(d.states, e.states, at, Visits(Active(LinesOf(d, at)), visitors), camera, id, swap);
  }

  lemma PurgeTurned(d: Detector, e: Detector, at: string, visitor: int, camera: string, id: string, swap: bool)
    requires TurnedDetector(d, e, camera, id, swap)
    ensures TurnedDetector(Apply(d, Purge(at, visitor)).0, Apply(e, Purge(at, visitor)).0, camera, id, swap)
  {
    hide TurnLine, TurnState, TurnLines, VisitAll;
  }

  lemma AddLineTurned(d: Detector, e: Detector, at: string, line: Line, camera: string, id: string, swap: bool)
    requires TurnedDetector(d, e, camera, id, swap)
    ensures TurnedDetector(Apply(d, AddLine(at, line)).0, Apply(e, TurnOp(AddLine(at, line), camera, id, swap)).0,
                           camera, id, swap)
  {
    hide TurnLine, TurnState, TurnLines, Without, VisitAll, TurnedStates;
    LinesOfTurned(d, e, camera, id, swap, at);
    AddTurned(LinesOf(d, at), line, id, swap);
  }

  lemma RemoveLineTurned(d: Detector, e: Detector, at: string, lineId: string, camera: string, id: string, swap: bool)
    requires TurnedDetector(d, e, camera, id, swap)
    ensures TurnedDetector(Apply(d, RemoveLine(at, lineId)).0, Apply(e, RemoveLine(at, lineId)).0, camera, id, swap)
  {
    hide TurnLine, TurnState, TurnLines, Without, VisitAll;
    LinesOfTurned(d, e, camera, id, swap, at);
    WithoutTurned(LinesOf(d, at), lineId, id, swap);
  }

  lemma ApplyTurned(d: Detector, e: Detector, op: Op, camera: string, id: string, swap: bool)
    requires TurnedDetector(d, e, camera, id, swap)
    ensures var (d', log) := Apply(d, op);
            var (e', log') := Apply(e, TurnOp(op, camera, id, swap));
            TurnedDetector(d', e', camera, id, swap) && log' == TurnLog(log, camera, id)
  {
    hide TurnedDetector, VisitAll, TurnLine, Active, Without, Visits;
    match op
    case Frame(at, visitors) => FrameTurned(d, e, at, visitors, camera, id, swap);
    case Purge(at, visitor) => PurgeTurned(d, e, at, visitor, camera, id, swap);
    case AddLine(at, line) => AddLineTurned(d, e, at, line, camera, id, swap);
    case RemoveLine(at, lineId) => RemoveLineTurned(d, e, at, lineId, camera, id, swap);
  }

  lemma AddTurned(lines: seq<Line>, line: Line, id: string, swap: bool)
    ensures var turn := TurnLine(line, id, swap);
            turn.id == line.id
            && Without(TurnLines(lines, id, swap), turn.id) + [turn]
               == TurnLines(Without(lines, line.id) + [line], id, swap)
  {
    WithoutTurned(lines, line.id, id, swap);
    var kept := Without(lines, line.id) + [line];
    TurnLinesSnoc(kept, id, swap);
    assert kept[..|kept| - 1] == Without(lines, line.id);
  }

  /** Turning one line round, by the flag or by exchanging its ends, reverses
      every crossing reported on it over any run, entering for leaving, and
      changes nothing else. */
  lemma {:induction false} TurnedRun(ops: seq<Op>, camera: string, id: string, swap: bool)
    ensures TurnedDetector(CrossingDetector.Run(ops).0, CrossingDetector.Run(TurnOps(ops, camera, id, swap)).0,
                           camera, id, swap)
    ensures CrossingDetector.Run(TurnOps(ops, camera, id, swap)).1 == TurnLog(CrossingDetector.Run(ops).1, camera, id)
  {
    hide Apply, TurnOp, TurnedDetector;
    if ops == [] {
      EmptyTurned(camera, id, swap);
    } else {
      var n := |ops| - 1;
      TurnedRun(ops[..n], camera, id, swap);
      assert TurnOps(ops, camera, id, swap)[..n] == TurnOps(ops[..n], camera, id, swap);
      var (d, log) := CrossingDetector.Run(ops[..n]);
      var e := CrossingDetector.Run(TurnOps(ops[..n], camera, id, swap)).0;
      ApplyTurned(d, e, ops[n], camera, id, swap);
      TurnLogSplit(log, Apply(d, ops[n]).1, camera, id);
    }
  }

  lemma EmptyTurned(camera: string, id: string, swap: bool)
    ensures TurnedDetector(EMPTY, EMPTY, camera, id, swap)
  {}
}
