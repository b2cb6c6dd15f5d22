/** The `LineCrossingDetector` over whole runs: frames with any number of
    visitors, lines added, replaced and removed, visitors purged. */
module CrossingDetector {
  import opened Options
  import opened LineCrossing

  /** Camera, line, visitor. */
  type Key = (string, string, int)

  datatype Seen = Seen(visitor: int, x: real, y: real)

  datatype Crossing = Crossing(key: Key, direction: Direction, eventType: EventType)

  /** The two dictionaries. */
  datatype Detector = Detector(lines: map<string, seq<Line>>, states: map<Key, State>)

  datatype Op =
    | Frame(camera: string, visitors: seq<Seen>)
    | Purge(camera: string, visitor: int)
    | AddLine(camera: string, line: Line)
    | RemoveLine(camera: string, lineId: string)

  const EMPTY := Detector(map[], map[])

  /** `_resolve_event_type`. */
  function EventTypeOf(l: Line, d: Direction): EventType {
    match l.lineType
    case ENTRY => if d == IN then CUSTOMER_ENTERED else CUSTOMER_EXITED
    case EXIT => if d == OUT then CUSTOMER_EXITED else CUSTOMER_ENTERED
    case BOTH => if d == IN then CUSTOMER_ENTERED else CUSTOMER_EXITED
  }

  // ----- one frame

  function Active(lines: seq<Line>): seq<Line> {
    if lines == [] then []
    else
      var last := lines[|lines| - 1];
      Active(lines[..|lines| - 1]) + if last.active then [last] else []
  }

  function LinesOf(d: Detector, camera: string): seq<Line> {
    if camera in d.lines then d.lines[camera] else []
  }

  /** The visits of the two loops, lines outside, visitors inside. */
  function Row(l: Line, visitors: seq<Seen>): seq<(Line, Seen)> {
    if visitors == [] then [] else Row(l, visitors[..|visitors| - 1]) + [(l, visitors[|visitors| - 1])]
  }

  function Visits(lines: seq<Line>, visitors: seq<Seen>): seq<(Line, Seen)> {
    if lines == [] then [] else Visits(lines[..|lines| - 1], visitors) + Row(lines[|lines| - 1], visitors)
  }

  function KeyOf(camera: string, visit: (Line, Seen)): Key {
    (camera, visit.0.id, visit.1.visitor)
  }

  function StateOf(states: map<Key, State>, key: Key): State {
    if key in states then states[key] else INITIAL
  }

  /** One visit: `setdefault`, then `update` with the side of the line. */
  function Visit(states: map<Key, State>, camera: string, visit: (Line, Seen)): (map<Key, State>, seq<Crossing>) {
    var (line, seen) := visit;
    var key := KeyOf(camera, visit);
    var (s, confirmed) := Update(StateOf(states, key), SideOf(line, seen.x, seen.y), line.minCrossings);
    (states[key := s],
     match confirmed
     case None => []
     case Some(d) => [Crossing(key, d, EventTypeOf(line, d))])
  }

  function VisitAll(states: map<Key, State>, camera: string, visits: seq<(Line, Seen)>):
      (map<Key, State>, seq<Crossing>) {
    if visits == [] then (states, [])
    else
      var (before, crossings) := VisitAll(states, camera, visits[..|visits| - 1]);
      var (after, more) := Visit(before, camera, visits[|visits| - 1]);
      (after, crossings + more)
  }

  // ----- runs

  function Without(lines: seq<Line>, lineId: string): seq<Line> {
    if lines == [] then []
    else
      var last := lines[|lines| - 1];
      Without(lines[..|lines| - 1], lineId) + if last.id != lineId then [last] else []
  }

  function Apply(d: Detector, op: Op): (Detector, seq<Crossing>) {
    match op
    case Frame(camera, visitors) =>
      var (states, crossings) := VisitAll(d.states, camera, Visits(Active(LinesOf(d, camera)), visitors));
      (d.(states := states), crossings)
    case Purge(camera, visitor) =>
      (d.(states := map k | k in d.states && !(k.0 == camera && k.2 == visitor) :: d.states[k]), [])
    case AddLine(camera, line) =>
      (d.(lines := d.lines[camera := Without(LinesOf(d, camera), line.id) + [line]]), [])
    case RemoveLine(camera, lineId) =>
      (Detector(d.lines[camera := Without(LinesOf(d, camera), lineId)],
                map k | k in d.states && !(k.0 == camera && k.1 == lineId) :: d.states[k]), [])
  }

  function Run(ops: seq<Op>): (Detector, seq<Crossing>) {
    if ops == [] then (EMPTY, [])
    else
      var (d, log) := Run(ops[..|ops| - 1]);
      var (d', crossings) := Apply(d, ops[|ops| - 1]);
      (d', log + crossings)
  }

  // ----- every visitor on their own

  function OfVisitor(log: seq<Crossing>, visitor: int): seq<Crossing> {
    if log == [] then []
    else
      var last := log[|log| - 1];
      OfVisitor(log[..|log| - 1], visitor) + if last.key.2 == visitor then [last] else []
  }

  function SeenAlone(visitors: seq<Seen>, visitor: int): seq<Seen> {
    if visitors == [] then []
    else
      var last := visitors[|visitors| - 1];
      SeenAlone(visitors[..|visitors| - 1], visitor) + if last.visitor == visitor then [last] else []
  }

  /** What is left of an operation with everybody else taken out. */
  function AloneOp(op: Op, visitor: int): seq<Op> {
    match op
    case Frame(camera, visitors) => [Frame(camera, SeenAlone(visitors, visitor))]
    case Purge(camera, other) => if other == visitor then [op] else []
    case AddLine(camera, line) => [op]
    case RemoveLine(camera, lineId) => [op]
  }

  /** The same run with everybody else taken out. */
  function Alone(ops: seq<Op>, visitor: int): seq<Op> {
    if ops == [] then [] else Alone(ops[..|ops| - 1], visitor) + AloneOp(ops[|ops| - 1], visitor)
  }

  ghost predicate Agree(a: map<Key, State>, b: map<Key, State>, visitor: int) {
    forall k: Key :: k.2 == visitor ==> (k in a <==> k in b) && (k in a ==> a[k] == b[k])
  }

  function VisitsOf(visits: seq<(Line, Seen)>, visitor: int): seq<(Line, Seen)> {
    if visits == [] then []
    else
      var last := visits[|visits| - 1];
      VisitsOf(visits[..|visits| - 1], visitor) + if last.1.visitor == visitor then [last] else []
  }

  lemma {:induction false} OfVisitorSplit(a: seq<Crossing>, b: seq<Crossing>, visitor: int)
    ensures OfVisitor(a + b, visitor) == OfVisitor(a, visitor) + OfVisitor(b, visitor)
  {
    if b == [] {
      assert a + b == a;
    } else {
      assert (a + b)[..|a + b| - 1] == a + b[..|b| - 1];
      OfVisitorSplit(a, b[..|b| - 1], visitor);
    }
  }

  lemma {:induction false} VisitsOfSplit(a: seq<(Line, Seen)>, b: seq<(Line, Seen)>, visitor: int)
    ensures VisitsOf(a + b, visitor) == VisitsOf(a, visitor) + VisitsOf(b, visitor)
  {
    if b == [] {
      assert a + b == a;
    } else {
      assert (a + b)[..|a + b| - 1] == a + b[..|b| - 1];
      VisitsOfSplit(a, b[..|b| - 1], visitor);
    }
  }

  lemma {:induction false} RowAlone(l: Line, visitors: seq<Seen>, visitor: int)
    ensures VisitsOf(Row(l, visitors), visitor) == Row(l, SeenAlone(visitors, visitor))
  {
    if visitors != [] {
      var init, last := visitors[..|visitors| - 1], visitors[|visitors| - 1];
      RowAlone(l, init, visitor);
      assert Row(l, visitors)[..|Row(l, init)|] == Row(l, init);
      if last.visitor == visitor {
        assert SeenAlone(visitors, visitor)[..|SeenAlone(init, visitor)|] == SeenAlone(init, visitor);
      } else {
        assert SeenAlone(visitors, visitor) == SeenAlone(init, visitor);
      }
    }
  }

  lemma {:induction false} VisitsAlone(lines: seq<Line>, visitors: seq<Seen>, visitor: int)
    ensures VisitsOf(Visits(lines, visitors), visitor) == Visits(lines, SeenAlone(visitors, visitor))
  {
    if lines != [] {
      var init, last := lines[..|lines| - 1], lines[|lines| - 1];
      VisitsAlone(init, visitors, visitor);
      RowAlone(last, visitors, visitor);
      VisitsOfSplit(Visits(init, visitors), Row(last, visitors), visitor);
    }
  }

  lemma {:induction false} VisitAllAlone(
    a: map<Key, State>, b: map<Key, State>, camera: string, visits: seq<(Line, Seen)>, visitor: int)
    requires Agree(a, b, visitor)
    ensures var (a', all), (b', own) := VisitAll(a, camera, visits), VisitAll(b, camera, VisitsOf(visits, visitor));
            Agree(a', b', visitor) && OfVisitor(all, visitor) == own
  {
    hide Visit, Agree;
    if visits != [] {
      var init, last := visits[..|visits| - 1], visits[|visits| - 1];
      VisitAllAlone(a, b, camera, init, visitor);
      var (a1, all) := VisitAll(a, camera, init);
      var (b1, own) := VisitAll(b, camera, VisitsOf(init, visitor));
      OfVisitorSplit(all, Visit(a1, camera, last).1, visitor);
      VisitAlone(a1, b1, camera, last, visitor);
      if last.1.visitor == visitor {
        assert VisitsOf(visits, visitor)[..|VisitsOf(init, visitor)|] == VisitsOf(init, visitor);
      } else {
        assert VisitsOf(visits, visitor) == VisitsOf(init, visitor);
        assert own + [] == own;
      }
    }
  }

  /** One visit, as the visitor's own detector sees it. */
  lemma VisitAlone(a: map<Key, State>, b: map<Key, State>, camera: string, visit: (Line, Seen), visitor: int)
    requires Agree(a, b, visitor)
    ensures var (a', more) := Visit(a, camera, visit);
            if visit.1.visitor == visitor then
              Agree(a', Visit(b, camera, visit).0, visitor) && OfVisitor(more, visitor) == Visit(b, camera, visit).1
            else Agree(a', b, visitor) && OfVisitor(more, visitor) == []
  {
    hide Update, SideOf, EventTypeOf, OfVisitor;
    OneCrossing(Visit(a, camera, visit).1, visitor);
  }

  lemma OneCrossing(c: seq<Crossing>, visitor: int)
    requires |c| <= 1
    ensures OfVisitor(c, visitor) == if c != [] && c[0].key.2 == visitor then c else []
  {
    if c != [] {
      assert c[..0] == [] && c == [c[0]];
    }
  }

  function ApplyAll(d: Detector, ops: seq<Op>): (Detector, seq<Crossing>)
    requires |ops| <= 1
  {
    if ops == [] then (d, []) else Apply(d, ops[0])
  }

  lemma ApplyAlone(d: Detector, own: Detector, op: Op, visitor: int)
    requires d.lines == own.lines && Agree(d.states, own.states, visitor)
    ensures var (d', crossings), (own', ownCrossings) := Apply(d, op), ApplyAll(own, AloneOp(op, visitor));
            && d'.lines == own'.lines && Agree(d'.states, own'.states, visitor)
            && OfVisitor(crossings, visitor) == ownCrossings
  {
    hide VisitAll, Visits, VisitsOf, SeenAlone, Active, Without;
    if op.Frame? {
      var lines := Active(LinesOf(d, op.camera));
      VisitsAlone(lines, op.visitors, visitor);
      VisitAllAlone(d.states, own.states, op.camera, Visits(lines, op.visitors), visitor);
    }
  }

  lemma RunMore(ops: seq<Op>, more: seq<Op>)
    requires |more| <= 1
    ensures var (d, log) := Run(ops);
            var (d', crossings) := ApplyAll(d, more);
            Run(ops + more) == (d', log + crossings)
  {
    if more == [] {
      assert ops + more == ops && Run(ops).1 + [] == Run(ops).1;
    } else {
      assert (ops + more)[..|ops|] == ops;
    }
  }

  /** Visitors do not influence each other: over any run, the crossings of a
      visitor are those of the run with everybody else taken out. */
  lemma {:induction false} VisitorsIndependent(ops: seq<Op>, visitor: int)
    ensures var (d, log), (own, ownLog) := Run(ops), Run(Alone(ops, visitor));
            && OfVisitor(log, visitor) == ownLog
            && d.lines == own.lines && Agree(d.states, own.states, visitor)
  {
    hide Apply, ApplyAll, AloneOp, Agree;
    if ops != [] {
      var init, op := ops[..|ops| - 1], ops[|ops| - 1];
      VisitorsIndependent(init, visitor);
      var d, own := Run(init).0, Run(Alone(init, visitor)).0;
      ApplyAlone(d, own, op, visitor);
      OfVisitorSplit(Run(init).1, Apply(d, op).1, visitor);
      AtMostOne(op, visitor);
      RunMore(Alone(init, visitor), AloneOp(op, visitor));
    } else {
      AgreeEmpty(visitor);
    }
  }

  lemma AtMostOne(op: Op, visitor: int)
    ensures |AloneOp(op, visitor)| <= 1
  {}

  lemma AgreeEmpty(visitor: int)
    ensures Agree(map[], map[], visitor)
  {}

  // ----- conservation

  /** A state whose last confirmed side is inside. */
  predicate IsInside(s: State) {
    s.lastSide.Some? && s.lastSide.value > 0.0
  }

  /** The visitors of a line that are taken to be inside. */
  function Inside(states: map<Key, State>, camera: string, lineId: string): set<Key> {
    set k | k in states && k.0 == camera && k.1 == lineId && IsInside(states[k])
  }

  /** Entered minus exited, over the events of one line. */
  function Net(log: seq<Crossing>, camera: string, lineId: string): int {
    if log == [] then 0
    else
      var last := log[|log| - 1];
      Net(log[..|log| - 1], camera, lineId) +
      if last.key.0 != camera || last.key.1 != lineId then 0
      else if last.eventType == CUSTOMER_ENTERED then 1 else -1
  }

  /** 1 when a visit is the first to find the visitor off the line, and inside:
      an episode of this visitor begins inside. */
  function BeginsInside(states: map<Key, State>, camera: string, visit: (Line, Seen)): nat {
    var last := StateOf(states, KeyOf(camera, visit)).lastSide;
    if (last == None || last == Some(0.0)) && SideOf(visit.0, visit.1.x, visit.1.y) > 0.0 then 1 else 0
  }

  function BegunInside(states: map<Key, State>, camera: string, visits: seq<(Line, Seen)>, lineId: string): nat {
    if visits == [] then 0
    else
      var init, last := visits[..|visits| - 1], visits[|visits| - 1];
      BegunInside(states, camera, init, lineId) +
      if last.0.id == lineId then BeginsInside(VisitAll(states, camera, init).0, camera, last) else 0
  }

  /** Episodes on a line that began inside in one operation. */
  function Begun(d: Detector, op: Op, camera: string, lineId: string): nat {
    if op.Frame? && op.camera == camera then
      BegunInside(d.states, camera, Visits(Active(LinesOf(d, camera)), op.visitors), lineId)
    else 0
  }

  /** Episodes on a line that an operation ended while inside. */
  function Ended(d: Detector, op: Op, camera: string, lineId: string): nat {
    |set k | k in Inside(d.states, camera, lineId) && k !in Apply(d, op).0.states|
  }

  /** Over a run: episodes begun inside, and episodes ended inside. */
  function Episodes(ops: seq<Op>, camera: string, lineId: string): (nat, nat) {
    if ops == [] then (0, 0)
    else
      var init, op := ops[..|ops| - 1], ops[|ops| - 1];
      var (begun, ended) := Episodes(init, camera, lineId);
      (begun + Begun(Run(init).0, op, camera, lineId), ended + Ended(Run(init).0, op, camera, lineId))
  }

  lemma {:induction false} NetSplit(a: seq<Crossing>, b: seq<Crossing>, camera: string, lineId: string)
    ensures Net(a + b, camera, lineId) == Net(a, camera, lineId) + Net(b, camera, lineId)
  {
    if b == [] {
      assert a + b == a;
    } else {
      assert (a + b)[..|a + b| - 1] == a + b[..|b| - 1];
      NetSplit(a, b[..|b| - 1], camera, lineId);
    }
  }

  lemma NetOne(c: Crossing, camera: string, lineId: string)
    ensures Net([c], camera, lineId) ==
            if c.key.0 != camera || c.key.1 != lineId then 0 else if c.eventType == CUSTOMER_ENTERED then 1 else -1
    ensures Net([], camera, lineId) == 0
  {
    assert [c][..0] == [];
  }

  lemma InsideUpdated(states: map<Key, State>, key: Key, s: State, camera: string, lineId: string)
    ensures var here := key.0 == camera && key.1 == lineId;
            |Inside(states[key := s], camera, lineId)| == |Inside(states, camera, lineId)|
              - (if here && IsInside(StateOf(states, key)) then 1 else 0) + (if here && IsInside(s) then 1 else 0)
  {
    if key.0 != camera || key.1 != lineId {
      InsideElsewhere(states, key, s, camera, lineId);
    } else {
      InsideHere(states, key, s);
    }
  }

  lemma InsideElsewhere(states: map<Key, State>, key: Key, s: State, camera: string, lineId: string)
    requires key.0 != camera || key.1 != lineId
    ensures Inside(states[key := s], camera, lineId) == Inside(states, camera, lineId)
  {
    hide IsInside;
  }

  lemma InsideHere(states: map<Key, State>, key: Key, s: State)
    ensures |Inside(states[key := s], key.0, key.1)| == |Inside(states, key.0, key.1)|
              - (if IsInside(StateOf(states, key)) then 1 else 0) + (if IsInside(s) then 1 else 0)
  {
    var before, now := Inside(states, key.0, key.1), Inside(states[key := s], key.0, key.1);
    var rest := before - {key};
    assert key in before <==> IsInside(StateOf(states, key));
    hide IsInside;
    assert before == if key in before then rest + {key} else rest;
    assert now == if IsInside(s) then rest + {key} else rest;
  }

  /** One visit moves a visitor in or out exactly when it reports so, or when it
      is the first to place the visitor. */
  lemma VisitConserves(states: map<Key, State>, at: string, visit: (Line, Seen), camera: string, lineId: string)
    ensures var (after, crossings) := Visit(states, at, visit);
            |Inside(after, camera, lineId)| == |Inside(states, camera, lineId)| + Net(crossings, camera, lineId)
              + if at == camera && visit.0.id == lineId then BeginsInside(states, at, visit) else 0
  {
    hide Inside, Net, SideOf;
    var (after, crossings) := Visit(states, at, visit);
    var key := KeyOf(at, visit);
    InsideUpdated(states, key, after[key], camera, lineId);
    NetOne(if crossings != [] then crossings[0] else Crossing(key, IN, CUSTOMER_ENTERED), camera, lineId);
    assert crossings == [] || crossings == [crossings[0]];
  }

  lemma {:induction false} VisitAllConserves(
    states: map<Key, State>, at: string, visits: seq<(Line, Seen)>, camera: string, lineId: string)
    ensures var (after, crossings) := VisitAll(states, at, visits);
            |Inside(after, camera, lineId)| == |Inside(states, camera, lineId)| + Net(crossings, camera, lineId)
              + if at == camera then BegunInside(states, at, visits, lineId) else 0
  {
    hide Visit, Inside, BeginsInside;
    if visits != [] {
      var init, last := visits[..|visits| - 1], visits[|visits| - 1];
      VisitAllConserves(states, at, init, camera, lineId);
      var (before, crossings) := VisitAll(states, at, init);
      VisitConserves(before, at, last, camera, lineId);
      NetSplit(crossings, Visit(before, at, last).1, camera, lineId);
    }
  }

  lemma {:induction false} VisitAllKeeps(states: map<Key, State>, at: string, visits: seq<(Line, Seen)>)
    ensures forall k :: k in states ==> k in VisitAll(states, at, visits).0
  {
    if visits != [] {
      VisitAllKeeps(states, at, visits[..|visits| - 1]);
    }
  }

  lemma ApplyConserves(d: Detector, op: Op, camera: string, lineId: string)
    ensures var (d', crossings) := Apply(d, op);
            |Inside(d'.states, camera, lineId)| + Ended(d, op, camera, lineId) ==
            |Inside(d.states, camera, lineId)| + Net(crossings, camera, lineId) + Begun(d, op, camera, lineId)
  {
    hide VisitAll, Visits, Active, BegunInside;
    var before, after := Inside(d.states, camera, lineId), Inside(Apply(d, op).0.states, camera, lineId);
    var gone := set k | k in before && k !in Apply(d, op).0.states;
    if op.Frame? {
      var visits := Visits(Active(LinesOf(d, op.camera)), op.visitors);
      VisitAllConserves(d.states, op.camera, visits, camera, lineId);
      VisitAllKeeps(d.states, op.camera, visits);
      assert gone == {};
    } else {
      assert after == before - gone;
      assert gone <= before;
    }
  }

  /** Conservation of occupancy: over any run, entered minus exited on a line is
      the number of visitor episodes whose last confirmed side is inside (those
      still going on and those ended by a purge or by removing the line) minus
      the number that began inside. */
  lemma {:induction false} OccupancyConserved(ops: seq<Op>, camera: string, lineId: string)
    ensures var (d, log), (begun, ended) := Run(ops), Episodes(ops, camera, lineId);
            Net(log, camera, lineId) == |Inside(d.states, camera, lineId)| + ended - begun
  {
    hide Apply, Inside, Begun, Ended;
    if ops != [] {
      var init, op := ops[..|ops| - 1], ops[|ops| - 1];
      OccupancyConserved(init, camera, lineId);
      ApplyConserves(Run(init).0, op, camera, lineId);
      NetSplit(Run(init).1, Apply(Run(init).0, op).1, camera, lineId);
    } else {
      NobodyInside(camera, lineId);
    }
  }

  lemma NobodyInside(camera: string, lineId: string)
    ensures Inside(map[], camera, lineId) == {}
  {}
}
