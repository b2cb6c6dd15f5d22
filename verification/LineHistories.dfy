/** The debounce rule over whole runs of the detector: what one visitor does on
    one line, whatever others do and whatever else happens. */
module LineHistories {
  import opened Options
  import opened LineCrossing
  import opened CrossingDetector

  /** The sides a key is seen on in some visits. */
  function SamplesOf(visits: seq<(Line, Seen)>, camera: string, key: Key): seq<real> {
    if visits == [] then []
    else
      var last := visits[|visits| - 1];
      SamplesOf(visits[..|visits| - 1], camera, key)
      + if KeyOf(camera, last) == key then [SideOf(last.0, last.1.x, last.1.y)] else []
  }

  /** Does an operation forget what is known about a key? */
  predicate Forgets(op: Op, key: Key) {
    match op
    case Frame(_, _) => false
    case Purge(camera, visitor) => key.0 == camera && key.2 == visitor
    case AddLine(_, _) => false
    case RemoveLine(camera, lineId) => key.0 == camera && key.1 == lineId
  }

  function VisitsIn(d: Detector, op: Op): seq<(Line, Seen)> {
    if op.Frame? then Visits(Active(LinesOf(d, op.camera)), op.visitors) else []
  }

  /** The samples of a key since it was last forgotten. */
  function Samples(ops: seq<Op>, key: Key): seq<real> {
    if ops == [] then []
    else
      var init, op := ops[..|ops| - 1], ops[|ops| - 1];
      if Forgets(op, key) then []
      else
        var d := CrossingDetector.Run(init).0;
        Samples(init, key) + if op.Frame? then SamplesOf(VisitsIn(d, op), op.camera, key) else []
  }

  function DirectionsOf(log: seq<Crossing>, key: Key): seq<Direction> {
    if log == [] then []
    else
      var last := log[|log| - 1];
      DirectionsOf(log[..|log| - 1], key) + if last.key == key then [last.direction] else []
  }

  /** The crossings the detector reported for a key since it was last forgotten. */
  function Directions(ops: seq<Op>, key: Key): seq<Direction> {
    if ops == [] then []
    else
      var init, op := ops[..|ops| - 1], ops[|ops| - 1];
      if Forgets(op, key) then []
      else Directions(init, key) + DirectionsOf(Apply(CrossingDetector.Run(init).0, op).1, key)
  }

  /** What the rule alone makes of a sample after some others. */
  ghost function Rule(past: seq<real>, side: real, minCrossings: int): seq<Direction> {
    var k, sides := Needed(minCrossings), Sides(past);
    if side == 0.0 || Confirmed(sides, k) == None then []
    else
      var away := Opposite(Confirmed(sides, k).value);
      if EndsIn(sides + [SideOfSample(side)], away, k) then [Toward(away)] else []
  }

  ghost function ByRule(samples: seq<real>, minCrossings: int): seq<Direction> {
    if samples == [] then []
    else
      var init, last := samples[..|samples| - 1], samples[|samples| - 1];
      ByRule(init, minCrossings) + Rule(init, last, minCrossings)
  }

  lemma {:induction false} CrossingsByRule(samples: seq<real>, minCrossings: int)
    ensures Crossings(samples, minCrossings) == ByRule(samples, minCrossings)
  {
    hide Update, Confirmed, EndsIn;
    if samples != [] {
      CrossingsByRule(samples[..|samples| - 1], minCrossings);
      ConfirmsExactlyWhen(samples[..|samples| - 1], samples[|samples| - 1], minCrossings);
    }
  }

  // ----- one frame

  /** The dictionary holds for a key what its samples make of the initial state. */
  ghost predicate Remembers(states: map<Key, State>, key: Key, samples: seq<real>, minCrossings: int) {
    && (key in states ==> states[key] == LineCrossing.Run(samples, minCrossings))
    && (key !in states ==> samples == [])
  }

  /** Every visit of a key asks for the same number of samples. */
  ghost predicate Uniform(visits: seq<(Line, Seen)>, camera: string, key: Key, minCrossings: int) {
    forall v :: v in visits && KeyOf(camera, v) == key ==> v.0.minCrossings == minCrossings
  }

  lemma DirectionsSplit(a: seq<Crossing>, b: seq<Crossing>, key: Key)
    requires |b| <= 1
    ensures DirectionsOf(a + b, key) == DirectionsOf(a, key) + DirectionsOf(b, key)
  {
    if b == [] {
      assert a + b == a;
    } else {
      assert (a + b)[..|a|] == a && b[..0] == [];
    }
  }

  lemma VisitRemembers(states: map<Key, State>, camera: string, visit: (Line, Seen), key: Key, past: seq<real>, m: int)
    requires Remembers(states, key, past, m)
    requires KeyOf(camera, visit) == key ==> visit.0.minCrossings == m
    ensures var (after, crossings) := Visit(states, camera, visit);
            var more := if KeyOf(camera, visit) == key then [SideOf(visit.0, visit.1.x, visit.1.y)] else [];
            && |crossings| <= 1
            && Remembers(after, key, past + more, m)
            && Crossings(past + more, m) == Crossings(past, m) + DirectionsOf(crossings, key)
  {
    hide Update, SideOf, EventTypeOf, Crossings, Remembers;
    var side := SideOf(visit.0, visit.1.x, visit.1.y);
    OneDirection(Visit(states, camera, visit).1, key);
    if KeyOf(camera, visit) == key {
      SampleSnoc(past, side, m);
      StateRemembered(states, key, past, m);
      NowRemembered(Visit(states, camera, visit).0, key, past + [side], m);
    } else {
      assert past + [] == past && Crossings(past, m) + [] == Crossings(past, m);
      OtherKey(states, KeyOf(camera, visit), Visit(states, camera, visit).0[KeyOf(camera, visit)], key, past, m);
    }
  }

  lemma OneDirection(crossings: seq<Crossing>, key: Key)
    requires |crossings| <= 1
    ensures DirectionsOf(crossings, key) ==
            if crossings != [] && crossings[0].key == key then [crossings[0].direction] else []
  {
    assert crossings != [] ==> crossings[..0] == [];
  }

  lemma SampleSnoc(past: seq<real>, side: real, m: int)
    ensures var (s, confirmed) := Update(LineCrossing.Run(past, m), side, m);
            && LineCrossing.Run(past + [side], m) == s
            && Crossings(past + [side], m) == Crossings(past, m) + match confirmed case None => [] case Some(d) => [d]
  {
    hide Update;
    assert (past + [side])[..|past|] == past;
  }

  lemma StateRemembered(states: map<Key, State>, key: Key, past: seq<real>, m: int)
    requires Remembers(states, key, past, m)
    ensures StateOf(states, key) == LineCrossing.Run(past, m)
  {
    hide Update;
  }

  lemma NowRemembered(states: map<Key, State>, key: Key, samples: seq<real>, m: int)
    requires key in states && states[key] == LineCrossing.Run(samples, m)
    ensures Remembers(states, key, samples, m)
  {}

  lemma OtherKey(states: map<Key, State>, at: Key, s: State, key: Key, past: seq<real>, m: int)
    requires Remembers(states, key, past, m) && at != key
    ensures Remembers(states[at := s], key, past, m)
  {
    hide Update;
  }

  lemma {:induction false} VisitAllRemembers(
    states: map<Key, State>, camera: string, visits: seq<(Line, Seen)>, key: Key, past: seq<real>, m: int)
    requires Remembers(states, key, past, m) && Uniform(visits, camera, key, m)
    ensures var (after, crossings) := VisitAll(states, camera, visits);
            var samples := past + SamplesOf(visits, camera, key);
            && Remembers(after, key, samples, m)
            && Crossings(samples, m) == Crossings(past, m) + DirectionsOf(crossings, key)
  {
    hide Visit, Crossings, Remembers, KeyOf, SideOf;
    if visits == [] {
      assert past + [] == past && Crossings(past, m) + [] == Crossings(past, m);
    } else {
      var init, last := visits[..|visits| - 1], visits[|visits| - 1];
      assert last in visits;
      VisitAllRemembers(states, camera, init, key, past, m);
      var (before, crossings) := VisitAll(states, camera, init);
      var samples := past + SamplesOf(init, camera, key);
      VisitRemembers(before, camera, last, key, samples, m);
      DirectionsSplit(crossings, Visit(before, camera, last).1, key);
      var more := if KeyOf(camera, last) == key then [SideOf(last.0, last.1.x, last.1.y)] else [];
      assert past + SamplesOf(visits, camera, key) == samples + more;
    }
  }

  // ----- the lines

  /** Whenever the line of a key is added, it asks for m samples. */
  ghost predicate FixedLine(ops: seq<Op>, key: Key, m: int) {
    forall op :: op in ops && op.AddLine? && op.camera == key.0 && op.line.id == key.1 ==> op.line.minCrossings == m
  }

  ghost predicate Asks(lines: seq<Line>, lineId: string, m: int) {
    forall l :: l in lines && l.id == lineId ==> l.minCrossings == m
  }

  lemma {:induction false} WithoutWithin(lines: seq<Line>, lineId: string)
    ensures forall l :: l in Without(lines, lineId) ==> l in lines
  {
    if lines != [] {
      WithoutWithin(lines[..|lines| - 1], lineId);
    }
  }

  lemma {:induction false} ActiveWithin(lines: seq<Line>)
    ensures forall l :: l in Active(lines) ==> l in lines
  {
    if lines != [] {
      ActiveWithin(lines[..|lines| - 1]);
    }
  }

  lemma {:induction false} RowWithin(l: Line, visitors: seq<Seen>)
    ensures forall v :: v in Row(l, visitors) ==> v.0 == l
  {
    if visitors != [] {
      RowWithin(l, visitors[..|visitors| - 1]);
    }
  }

  lemma {:induction false} VisitsWithin(lines: seq<Line>, visitors: seq<Seen>)
    ensures forall v :: v in Visits(lines, visitors) ==> v.0 in lines
  {
    if lines != [] {
      VisitsWithin(lines[..|lines| - 1], visitors);
      RowWithin(lines[|lines| - 1], visitors);
    }
  }

  lemma {:induction false} LinesAsk(ops: seq<Op>, key: Key, m: int)
    requires FixedLine(ops, key, m)
    ensures Asks(LinesOf(CrossingDetector.Run(ops).0, key.0), key.1, m)
  {
    hide VisitAll, Without;
    if ops != [] {
      var init, op := ops[..|ops| - 1], ops[|ops| - 1];
      assert op in ops && forall o :: o in init ==> o in ops;
      LinesAsk(init, key, m);
      var lines := LinesOf(CrossingDetector.Run(init).0, key.0);
      if op.AddLine? {
        WithoutWithin(lines, op.line.id);
      } else if op.RemoveLine? {
        WithoutWithin(lines, op.lineId);
      }
    }
  }

  // ----- whole runs

  lemma ApplyRemembers(d: Detector, op: Op, key: Key, past: seq<real>, m: int)
    requires Remembers(d.states, key, past, m) && Asks(LinesOf(d, key.0), key.1, m)
    ensures var (d', crossings) := Apply(d, op);
            var more := if op.Frame? then SamplesOf(VisitsIn(d, op), op.camera, key) else [];
            if Forgets(op, key) then Remembers(d'.states, key, [], m)
            else
              && Remembers(d'.states, key, past + more, m)
              && Crossings(past + more, m) == Crossings(past, m) + DirectionsOf(crossings, key)
  {
    hide VisitAll, Crossings, Visits;
    assert past + [] == past && Crossings(past, m) + [] == Crossings(past, m);
    if op.Frame? {
      var lines := LinesOf(d, op.camera);
      ActiveWithin(lines);
      VisitsWithin(Active(lines), op.visitors);
      assert Uniform(VisitsIn(d, op), op.camera, key, m);
      VisitAllRemembers(d.states, op.camera, VisitsIn(d, op), key, past, m);
    }
  }

  lemma {:induction false} RunRemembers(ops: seq<Op>, key: Key, m: int)
    requires FixedLine(ops, key, m)
    ensures Remembers(CrossingDetector.Run(ops).0.states, key, Samples(ops, key), m)
    ensures Directions(ops, key) == Crossings(Samples(ops, key), m)
  {
    hide Apply, Remembers, VisitsIn, SamplesOf;
    if ops == [] {
      NothingRemembered(key, m);
    } else {
      var init, op := ops[..|ops| - 1], ops[|ops| - 1];
      assert forall o :: o in init ==> o in ops;
      RunRemembers(init, key, m);
      LinesAsk(init, key, m);
      ApplyRemembers(CrossingDetector.Run(init).0, op, key, Samples(init, key), m);
      assert Samples(init, key) + [] == Samples(init, key);
    }
  }

  lemma NothingRemembered(key: Key, m: int)
    ensures Remembers(EMPTY.states, key, [], m)
  {}

  /** Over any run in which a line always asks for the same number of samples,
      the crossings reported for a visitor on it, since the visitor was last
      purged or the line removed, are exactly those the debounce rule gives for
      the visitor's own samples: one whenever the last k samples off the line
      all lie opposite to the last confirmed side. */
  lemma DetectorFollowsRule(ops: seq<Op>, key: Key, m: int)
    requires FixedLine(ops, key, m)
    ensures Directions(ops, key) == ByRule(Samples(ops, key), m)
  {
    RunRemembers(ops, key, m);
    CrossingsByRule(Samples(ops, key), m);
  }
}
